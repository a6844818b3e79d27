/** Stitching hop paths at the forced fixes: the joined path, its price, and what it visits. */
module ForcedStitch {
  import opened Numbers
  import opened NavGraphs
  import opened SearchModel
  import opened PathCosts
  import opened AStarInvariants
  import opened AStar
  import opened YenPartition
  import opened YenSpurs
  import opened Yen

  // ---- Extending a walk by a path found under stronger bans ----------------------------------------

  /** th forbids at least what t forbids, on the same edges. */
  ghost predicate Tightens(t: Task, th: Task) {
    && SameEdges(t, th)
    && (forall v :: t.opts.nodeFilter.Blocks(v) ==> th.opts.nodeFilter.Blocks(v))
    && (forall u, v :: t.opts.edgeFilter.Blocks(u, v) ==> th.opts.edgeFilter.Blocks(u, v))
  }

  lemma StepExtends(t: Task, th: Task, w: Walk, wh: Walk, u: int, v: int)
    requires Tightens(t, th) && StepTo(th, Some(wh), u, v).Some?
    ensures var s, sh := StepTo(t, Some(w), u, v), StepTo(th, Some(wh), u, v).value;
            && s.Some? && s.value.inbound == sh.inbound
            && s.value.distance - w.distance == sh.distance - wh.distance
            && (w.inbound == wh.inbound || !t.opts.turn.enabled ==> s.value.cost - w.cost == sh.cost - wh.cost)
            && (wh.inbound == NO_BEARING && t.opts.turn.NonNegative() ==> s.value.cost - w.cost >= sh.cost - wh.cost)
  {
    hide Hop;
    SameHop(t, th, u, v);
  }

  /** How far w has run ahead of base, compared with wh ahead of its own start. */
  ghost predicate RunsWith(t: Task, base: Walk, w: Walk, start: Walk, wh: Walk) {
    && w.distance - base.distance == wh.distance - start.distance
    && ((t.opts.turn.enabled ==> start.inbound == base.inbound) ==> w.cost - base.cost == wh.cost - start.cost)
    && (start.inbound == NO_BEARING && t.opts.turn.NonNegative() ==> w.cost - base.cost >= wh.cost - start.cost)
  }

  /** A path found from the end of p under tighter bans extends p; only the turn at the seam can add cost. */
  lemma {:induction false} WalkExtends(t: Task, th: Task, p: Path, part: Path)
    requires Tightens(t, th) && WalkOf(t, p).Some? && WalkOf(th, part).Some? && part[0] == p[|p| - 1]
    ensures WalkOf(th, part[..1]).Some? && WalkOf(t, p + part[1..]).Some?
    ensures RunsWith(t, WalkOf(t, p).value, WalkOf(t, p + part[1..]).value, WalkOf(th, part[..1]).value, WalkOf(th, part).value)
    ensures |part| > 1 ==> WalkOf(t, p + part[1..]).value.inbound == WalkOf(th, part).value.inbound
    decreases |part|
  {
    WalkPrefix(th, part, 1);
    if |part| == 1 {
      assert p + part[1..] == p && part[..1] == part;
    } else {
      WalkPrefix(th, part, |part| - 1);
      WalkExtends(t, th, p, part[..|part| - 1]);
      hide *;
      assert part[..|part| - 1][..1] == part[..1];
      ExtendLast(t, th, p, part);
    }
  }

  lemma ExtendLast(t: Task, th: Task, p: Path, part: Path)
    requires Tightens(t, th) && |part| > 1 && WalkOf(t, p).Some? && part[0] == p[|p| - 1]
    requires WalkOf(th, part).Some? && WalkOf(th, part[..1]).Some? && WalkOf(th, part[..|part| - 1]).Some?
    requires var q := p + part[..|part| - 1][1..];
             && WalkOf(t, q).Some?
             && RunsWith(t, WalkOf(t, p).value, WalkOf(t, q).value, WalkOf(th, part[..1]).value, WalkOf(th, part[..|part| - 1]).value)
             && (|part| > 2 ==> WalkOf(t, q).value.inbound == WalkOf(th, part[..|part| - 1]).value.inbound)
    ensures WalkOf(t, p + part[1..]).Some?
    ensures RunsWith(t, WalkOf(t, p).value, WalkOf(t, p + part[1..]).value, WalkOf(th, part[..1]).value, WalkOf(th, part).value)
    ensures WalkOf(t, p + part[1..]).value.inbound == WalkOf(th, part).value.inbound
  {
    hide WalkOf, StepTo, Tightens, TurnPenalty.NonNegative;
    var whole, q := p + part[1..], p + part[..|part| - 1][1..];
    WalkIsNotEmpty(t, p);
    assert whole[..|whole| - 1] == q;
    assert whole[|whole| - 1] == part[|part| - 1] && whole[|whole| - 2] == part[|part| - 2];
    WalkUnfold(t, whole);
    WalkUnfold(th, part);
    assert |part| == 2 ==> part[..|part| - 1] == part[..1];
    StepExtends(t, th, WalkOf(t, q).value, WalkOf(th, part[..|part| - 1]).value, part[|part| - 2], part[|part| - 1]);
  }

  lemma WalkIsNotEmpty(t: Task, p: Path)
    requires WalkOf(t, p).Some?
    ensures p != []
  {
  }

  // ---- Hops -----------------------------------------------------------------------------------

  /** A routing request through an ordered list of forced fixes. */
  datatype Via = Via(
    graph: NavGraph, opts: SearchOptions, sources: seq<SeededEndpoint>, goals: seq<SeededEndpoint>, forced: seq<int>)

  function HopSources(via: Via, h: nat): seq<SeededEndpoint> {
    if h == 0 || h > |via.forced| then via.sources else [SeededEndpoint(via.forced[h - 1], 0.0, NO_BEARING)]
  }

  function HopGoals(via: Via, h: nat): seq<SeededEndpoint> {
    if h >= |via.forced| then via.goals else [SeededEndpoint(via.forced[h], 0.0, NO_BEARING)]
  }

  ghost function HopTask(via: Via, h: nat): Task {
    TaskFor(via.graph, via.opts, HopSources(via, h), HopGoals(via, h))
  }

  ghost function WholeTask(via: Via): Task {
    TaskFor(via.graph, via.opts, via.sources, via.goals)
  }

  lemma LoneEndpoint(u: int, v: int)
    ensures SeedAt([SeededEndpoint(u, 0.0, NO_BEARING)], v) == if v == u then 0.0 else -1.0
    ensures BearingAt([SeededEndpoint(u, 0.0, NO_BEARING)], v) == NO_BEARING
  {
    var es := [SeededEndpoint(u, 0.0, NO_BEARING)];
    assert es[..0] == [];
  }

  /** What the tables of a hop's search hold. */
  lemma HopTables(via: Via, h: nat, v: int)
    requires h <= |via.forced|
    ensures var th, t := HopTask(via, h), WholeTask(via);
            && th.graph == t.graph == via.graph && th.opts == t.opts == via.opts
            && (h == 0 ==> th.SeedOf(v) == t.SeedOf(v) && th.SourceBearingOf(v) == t.SourceBearingOf(v))
            && (h > 0 ==> th.SourceBearingOf(v) == NO_BEARING && (th.SeedOf(v) >= 0.0 ==> v == via.forced[h - 1] && th.SeedOf(v) == 0.0))
            && (h == |via.forced| ==> th.GoalSeedOf(v) == t.GoalSeedOf(v) && th.GoalBearingOf(v) == t.GoalBearingOf(v))
            && (h < |via.forced| ==> th.GoalBearingOf(v) == NO_BEARING && (th.GoalSeedOf(v) >= 0.0 ==> v == via.forced[h] && th.GoalSeedOf(v) == 0.0))
  {
    hide SeedAt, BearingAt;
    if h > 0 {
      LoneEndpoint(via.forced[h - 1], v);
    }
    if h < |via.forced| {
      LoneEndpoint(via.forced[h], v);
    }
  }

  lemma HopTightens(via: Via, h: nat)
    requires h <= |via.forced|
    ensures Tightens(WholeTask(via), HopTask(via, h))
  {
    HopTables(via, h, 0);
  }

  /** The first hop's walks are walks of the whole request. */
  lemma {:induction false} FirstHopWalk(via: Via, p: Path)
    ensures WalkOf(HopTask(via, 0), p) == WalkOf(WholeTask(via), p)
    decreases |p|
  {
    hide HopTask, WholeTask, StepTo;
    HopTables(via, 0, 0);
    if |p| == 1 {
      HopTables(via, 0, p[0]);
    } else if |p| > 1 {
      FirstHopWalk(via, p[..|p| - 1]);
      SameStep(WholeTask(via), HopTask(via, 0), WalkOf(WholeTask(via), p[..|p| - 1]), p[|p| - 2], p[|p| - 1]);
    }
  }

  lemma SameStep(t: Task, th: Task, w: Option<Walk>, u: int, v: int)
    requires th.graph == t.graph && th.opts == t.opts
    ensures StepTo(th, w, u, v) == StepTo(t, w, u, v)
  {
    hide Hop, TurnCost;
  }

  /** Where a hop path starts and ends, and that its price is its walk's when it ends at a forced fix. */
  lemma HopEnds(via: Via, h: nat, part: ShortestPath)
    requires h <= |via.forced| && Priced(HopTask(via, h), part)
    ensures var th := HopTask(via, h);
            && part.vertices != [] && WalkOf(th, part.vertices).Some?
            && (h > 0 ==>
                  && part.vertices[0] == via.forced[h - 1]
                  && WalkOf(th, part.vertices[..1]) == Some(Walk(0.0, 0.0, NO_BEARING)))
            && (h < |via.forced| ==>
                  && part.vertices[|part.vertices| - 1] == via.forced[h]
                  && part.cost == WalkOf(th, part.vertices).value.cost
                  && part.distance == WalkOf(th, part.vertices).value.distance)
  {
    hide HopTask, WalkOf, Finish;
    var th, p := HopTask(via, h), part.vertices;
    GoodFacts(th, p);
    WalkPrefix(th, p, 1);
    HopTables(via, h, p[0]);
    HopTables(via, h, p[|p| - 1]);
    assert p[..1] == [p[0]];
    LoneWalk(th, p[0]);
    if h < |via.forced| {
      FinishFree(th, WalkOf(th, p).value, p[|p| - 1]);
    }
  }

  lemma LoneWalk(t: Task, v: int)
    ensures WalkOf(t, [v]).Some? ==> t.SeedOf(v) >= 0.0 && WalkOf(t, [v]) == Some(Walk(t.SeedOf(v), t.SeedOf(v), t.SourceBearingOf(v)))
  {
  }

  /** Ending where the goal is free and has no heading adds nothing. */
  lemma FinishFree(t: Task, w: Walk, v: int)
    requires t.GoalSeedOf(v) >= 0.0 ==> t.GoalSeedOf(v) == 0.0
    requires t.GoalBearingOf(v) == NO_BEARING
    ensures Finish(t, w, v).Some? ==> t.GoalSeedOf(v) == 0.0 && Finish(t, w, v).value == Leg(w.cost, w.distance)
  {
  }

  // ---- Joining --------------------------------------------------------------------------------

  /** The hop paths laid end to end, each seam vertex kept once. */
  ghost function Join(parts: seq<Path>): Path
    decreases |parts|
  {
    if parts == [] then []
    else if |parts| == 1 then parts[0]
    else if parts[|parts| - 1] == [] then Join(parts[..|parts| - 1])
    else Join(parts[..|parts| - 1]) + parts[|parts| - 1][1..]
  }

  ghost function Vertices(parts: seq<ShortestPath>): (ps: seq<Path>)
    ensures |ps| == |parts| && forall h :: 0 <= h < |parts| ==> ps[h] == parts[h].vertices
  {
    Paths(parts)
  }

  ghost function SumCost(parts: seq<ShortestPath>): real {
    if parts == [] then 0.0 else SumCost(parts[..|parts| - 1]) + parts[|parts| - 1].cost
  }

  ghost function SumDistance(parts: seq<ShortestPath>): real {
    if parts == [] then 0.0 else SumDistance(parts[..|parts| - 1]) + parts[|parts| - 1].distance
  }

  /** Every part is a priced answer of its hop. */
  ghost predicate HopParts(via: Via, parts: seq<ShortestPath>) {
    |parts| <= |via.forced| + 1 && forall h :: 0 <= h < |parts| ==> Priced(HopTask(via, h), parts[h])
  }

  lemma JoinUnfold(parts: seq<ShortestPath>)
    requires |parts| > 1 && parts[|parts| - 1].vertices != []
    ensures Join(Vertices(parts)) == Join(Vertices(parts[..|parts| - 1])) + parts[|parts| - 1].vertices[1..]
  {
    assert Vertices(parts)[..|parts| - 1] == Vertices(parts[..|parts| - 1]);
  }

  /** p is a walk of the whole request of the given length, costing at least `cost`, and exactly that without turns. */
  ghost predicate WalkPriced(via: Via, p: Path, cost: real, distance: real) {
    var w := WalkOf(WholeTask(via), p);
    && w.Some? && p != [] && w.value.distance == distance
    && (!via.opts.turn.enabled ==> w.value.cost == cost)
    && (via.opts.turn.NonNegative() ==> w.value.cost >= cost)
  }

  /** Appending one more hop that ends at a forced fix. */
  lemma WalkPricedStep(via: Via, h: nat, p: Path, cost: real, distance: real, part: ShortestPath)
    requires WalkPriced(via, p, cost, distance) && 0 < h < |via.forced| && p[|p| - 1] == via.forced[h - 1]
    requires Priced(HopTask(via, h), part)
    ensures part.vertices != []
    ensures var whole := p + part.vertices[1..];
            WalkPriced(via, whole, cost + part.cost, distance + part.distance) && whole[|whole| - 1] == via.forced[h]
  {
    hide WalkOf, HopTask, WholeTask, Priced, Tightens, TurnPenalty.NonNegative;
    HopEnds(via, h, part);
    HopTables(via, h, 0);
    HopTightens(via, h);
    WalkExtends(WholeTask(via), HopTask(via, h), p, part.vertices);
    EndsAlike(p, part.vertices);
  }

  lemma FirstHopPriced(via: Via, part: ShortestPath)
    requires via.forced != [] && Priced(HopTask(via, 0), part)
    ensures part.vertices != [] && WalkPriced(via, part.vertices, part.cost, part.distance)
    ensures part.vertices[|part.vertices| - 1] == via.forced[0]
  {
    hide WalkOf, HopTask, WholeTask, Priced, TurnPenalty.NonNegative;
    HopEnds(via, 0, part);
    FirstHopWalk(via, part.vertices);
  }

  /** The join of the hops before the last is a walk to the next forced fix, priced at least at their sum. */
  lemma {:induction false} JoinIsWalk(via: Via, parts: seq<ShortestPath>)
    requires 1 <= |parts| <= |via.forced| && HopParts(via, parts)
    ensures var p := Join(Vertices(parts));
            WalkPriced(via, p, SumCost(parts), SumDistance(parts)) && p != [] && p[|p| - 1] == via.forced[|parts| - 1]
    decreases |parts|
  {
    var m := |parts|;
    hide WalkOf, HopTask, WholeTask, Priced, Join, Vertices, WalkPriced;
    if m == 1 {
      LoneJoin(parts);
      FirstHopPriced(via, parts[0]);
    } else {
      JoinIsWalk(via, parts[..m - 1]);
      WalkPricedStep(via, m - 1, Join(Vertices(parts[..m - 1])), SumCost(parts[..m - 1]), SumDistance(parts[..m - 1]), parts[m - 1]);
      JoinUnfold(parts);
    }
  }

  lemma LoneJoin(parts: seq<ShortestPath>)
    requires |parts| == 1
    ensures Join(Vertices(parts)) == parts[0].vertices
    ensures SumCost(parts) == parts[0].cost && SumDistance(parts) == parts[0].distance
  {
    assert parts[..0] == [];
  }

  lemma EndsAlike(p: Path, part: Path)
    requires p != [] && part != [] && part[0] == p[|p| - 1]
    ensures var whole := p + part[1..]; whole[|whole| - 1] == part[|part| - 1]
  {
  }

  /** Re-costing the whole join never comes out below the hops' summed costs, and exactly at it without turns. */
  lemma JoinIsPriced(via: Via, parts: seq<ShortestPath>)
    requires via.forced != [] && |parts| == |via.forced| + 1 && HopParts(via, parts)
    ensures var t, p := WholeTask(via), Join(Vertices(parts));
            && Accepts(t, p)
            && TotalOf(t, p).value.distance == SumDistance(parts)
            && (!via.opts.turn.enabled ==> CostOf(t, p) == SumCost(parts))
            && (via.opts.turn.NonNegative() ==> CostOf(t, p) >= SumCost(parts))
  {
    var m := |parts|;
    hide *;
    HopPartsFront(via, parts);
    SumsUnfold(parts);
    JoinIsWalk(via, parts[..m - 1]);
    LastHopPriced(via, Join(Vertices(parts[..m - 1])), SumCost(parts[..m - 1]), SumDistance(parts[..m - 1]), parts[m - 1]);
    JoinUnfold(parts);
  }

  lemma HopPartsFront(via: Via, parts: seq<ShortestPath>)
    requires HopParts(via, parts) && parts != []
    ensures HopParts(via, parts[..|parts| - 1]) && Priced(HopTask(via, |parts| - 1), parts[|parts| - 1])
  {
    hide Priced, HopTask;
  }

  lemma SumsUnfold(parts: seq<ShortestPath>)
    requires parts != []
    ensures SumCost(parts) == SumCost(parts[..|parts| - 1]) + parts[|parts| - 1].cost
    ensures SumDistance(parts) == SumDistance(parts[..|parts| - 1]) + parts[|parts| - 1].distance
  {
  }

  /** Appending the last hop completes an accepted path of the whole request. */
  lemma LastHopPriced(via: Via, p: Path, cost: real, distance: real, part: ShortestPath)
    requires WalkPriced(via, p, cost, distance) && via.forced != [] && p[|p| - 1] == via.forced[|via.forced| - 1]
    requires Priced(HopTask(via, |via.forced|), part)
    ensures part.vertices != []
    ensures var t, whole := WholeTask(via), p + part.vertices[1..];
            && Accepts(t, whole)
            && TotalOf(t, whole).value.distance == distance + part.distance
            && (!via.opts.turn.enabled ==> CostOf(t, whole) == cost + part.cost)
            && (via.opts.turn.NonNegative() ==> CostOf(t, whole) >= cost + part.cost)
  {
    hide WalkOf, HopTask, WholeTask, Tightens, Finish, TurnPenalty.NonNegative;
    var h := |via.forced|;
    var t, th, last := WholeTask(via), HopTask(via, h), part.vertices;
    HopEnds(via, h, part);
    HopTables(via, h, last[|last| - 1]);
    HopTightens(via, h);
    WalkExtends(t, th, p, last);
    EndsAlike(p, last);
    var whole := p + last[1..];
    assert |last| == 1 ==> last[..1] == last;
    FinishExtends(t, th, WalkOf(t, whole).value, WalkOf(th, last).value, whole[|whole| - 1]);
  }

  lemma FinishExtends(t: Task, th: Task, w: Walk, wh: Walk, v: int)
    requires t.opts == th.opts && t.GoalSeedOf(v) == th.GoalSeedOf(v) && t.GoalBearingOf(v) == th.GoalBearingOf(v)
    requires Finish(th, wh, v).Some? && (w.inbound == wh.inbound || wh.inbound == NO_BEARING)
    ensures var f, fh := Finish(t, w, v), Finish(th, wh, v).value;
            && f.Some? && f.value.distance - w.distance == fh.distance - wh.distance
            && (!t.opts.turn.enabled ==> f.value.cost - w.cost == fh.cost - wh.cost)
            && (t.opts.turn.NonNegative() ==> f.value.cost - w.cost >= fh.cost - wh.cost)
  {
  }

  // ---- What a join visits, and that it determines its parts -----------------------------------

  /** p passes the forced fixes in order. */
  ghost predicate Visits(p: Path, forced: seq<int>) {
    exists at: seq<int> :: VisitsAt(p, forced, at)
  }

  ghost predicate VisitsAt(p: Path, forced: seq<int>, at: seq<int>) {
    && |at| == |forced|
    && (forall h :: 0 <= h < |at| ==> 0 <= at[h] < |p| && p[at[h]] == forced[h])
    && (forall h, j :: 0 <= h <= j < |at| ==> at[h] <= at[j])
  }

  lemma VisitsLonger(p: Path, more: Path, forced: seq<int>)
    requires Visits(p, forced)
    ensures Visits(p + more, forced)
  {
    var at :| VisitsAt(p, forced, at);
    assert VisitsAt(p + more, forced, at);
  }

  /** Reaching the next forced fix at the end of the path extends the visit. */
  lemma VisitsNext(p: Path, forced: seq<int>, f: int)
    requires Visits(p, forced) && p != [] && p[|p| - 1] == f
    ensures Visits(p, forced + [f])
  {
    var at :| VisitsAt(p, forced, at);
    assert VisitsAt(p, forced + [f], at + [|p| - 1]);
  }

  lemma {:induction false} JoinVisits(via: Via, parts: seq<ShortestPath>)
    requires 1 <= |parts| <= |via.forced| && HopParts(via, parts)
    ensures Visits(Join(Vertices(parts)), via.forced[..|parts|])
    decreases |parts|
  {
    hide HopTask, Priced, Join, Vertices, WalkOf, Visits, WholeTask, WalkPriced;
    var m := |parts|;
    JoinIsWalk(via, parts);
    HopEnds(via, m - 1, parts[m - 1]);
    var p := Join(Vertices(parts));
    if m == 1 {
      NothingToVisit(p);
    } else {
      JoinVisits(via, parts[..m - 1]);
      JoinUnfold(parts);
      VisitsLonger(Join(Vertices(parts[..m - 1])), parts[m - 1].vertices[1..], via.forced[..m - 1]);
    }
    VisitsNext(p, via.forced[..m - 1], via.forced[m - 1]);
    assert via.forced[..m - 1] + [via.forced[m - 1]] == via.forced[..m];
  }

  lemma NothingToVisit(p: Path)
    ensures Visits(p, [])
  {
    assert VisitsAt(p, [], []);
  }

  lemma WholeJoinVisits(via: Via, parts: seq<ShortestPath>)
    requires via.forced != [] && |parts| == |via.forced| + 1 && HopParts(via, parts)
    ensures Visits(Join(Vertices(parts)), via.forced)
  {
    hide HopTask, Priced, Join, Vertices, Visits, WalkOf;
    var m := |parts|;
    HopEnds(via, m - 1, parts[m - 1]);
    JoinVisits(via, parts[..m - 1]);
    JoinUnfold(parts);
    VisitsLonger(Join(Vertices(parts[..m - 1])), parts[m - 1].vertices[1..], via.forced[..m - 1]);
    assert via.forced[..m - 1] == via.forced;
  }

  /** A loopless join determines the hop paths it was stitched from. */
  lemma {:induction false} JoinDetermines(via: Via, parts: seq<ShortestPath>, others: seq<ShortestPath>, h: nat)
    requires |parts| == |others| && HopParts(via, parts) && HopParts(via, others) && h < |parts|
    requires Simple(Join(Vertices(parts))) && Join(Vertices(parts)) == Join(Vertices(others))
    ensures parts[h].vertices == others[h].vertices
    decreases |parts|
  {
    hide HopTask, Priced, Join, Vertices, WalkOf, WholeTask, WalkPriced;
    var m := |parts|;
    if m == 1 {
      LoneJoin(parts);
      LoneJoin(others);
    } else {
      var a, b := parts[..m - 1], others[..m - 1];
      HopEnds(via, m - 1, parts[m - 1]);
      HopEnds(via, m - 1, others[m - 1]);
      JoinIsWalk(via, a);
      JoinIsWalk(via, b);
      JoinUnfold(parts);
      JoinUnfold(others);
      SameSeam(Join(Vertices(a)), parts[m - 1].vertices, Join(Vertices(b)), others[m - 1].vertices);
      if h < m - 1 {
        JoinDetermines(via, a, b, h);
      }
    }
  }

  lemma SameSeam(p: Path, part: Path, q: Path, other: Path)
    requires p != [] && q != [] && part != [] && other != []
    requires p[|p| - 1] == part[0] == q[|q| - 1] == other[0]
    requires p + part[1..] == q + other[1..] && Simple(p + part[1..])
    ensures p == q && part == other && Simple(p)
  {
    var whole := p + part[1..];
    assert whole[|p| - 1] == p[|p| - 1];
    assert whole[|q| - 1] == (q + other[1..])[|q| - 1] == q[|q| - 1];
    assert |p| == |q|;
    assert p == whole[..|p|] && q == whole[..|q|];
    assert part[1..] == whole[|p|..] && other[1..] == whole[|q|..];
    assert part == [part[0]] + part[1..] && other == [other[0]] + other[1..];
    assert forall i :: 0 <= i < |p| ==> p[i] == whole[i];
  }
}

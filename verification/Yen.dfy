/** K shortest loopless paths: Yen's algorithm with Lawler's start index, a super-source and a super-sink. */
module Yen {
  import opened Numbers
  import opened NavGraphs
  import opened SearchModel
  import opened PathCosts
  import opened Workspaces
  import opened AStarInvariants
  import opened AStarResults
  import opened AStar
  import opened YenPartition
  import opened YenSpurs
  import opened YenCandidates
  import opened YenAnswers

  ghost function Paths(result: seq<ShortestPath>): (ps: seq<Path>)
    ensures |ps| == |result| && forall i :: 0 <= i < |ps| ==> ps[i] == result[i].vertices
  {
    if result == [] then [] else Paths(result[..|result| - 1]) + [result[|result| - 1].vertices]
  }

  lemma PathsAppend(result: seq<ShortestPath>, r: ShortestPath)
    ensures Paths(result + [r]) == Paths(result) + [r.vertices]
  {
    assert (result + [r])[..|result|] == result;
  }

  /** A returned path is good and carries the cost and distance the re-cost gives it. */
  ghost predicate Priced(t: Task, r: ShortestPath) {
    r.found && Good(t, r.vertices) && TotalOf(t, r.vertices) == Some(Leg(r.cost, r.distance))
  }

  /** r is cheapest among the good paths not accepted before it. */
  ghost predicate LeastBut(t: Task, accepted: seq<Path>, r: ShortestPath) {
    forall p :: Good(t, p) && p !in accepted ==> r.cost <= CostOf(t, p)
  }

  ghost predicate Accepted(t: Task, result: seq<ShortestPath>) {
    && (forall i :: 0 <= i < |result| ==> Priced(t, result[i]))
    && Distinct(Paths(result))
    && (Exact(t) ==> forall i :: 0 <= i < |result| ==> LeastBut(t, Paths(result)[..i], result[i]))
  }

  ghost predicate Distinct(ps: seq<Path>) {
    forall i, j :: 0 <= i < j < |ps| ==> ps[i] != ps[j]
  }

  ghost predicate Returned(result: seq<ShortestPath>, p: Path) {
    exists i :: 0 <= i < |result| && result[i].vertices == p
  }

  /** Costs never fall along the list, and no good path outside it is cheaper than any inside. */
  ghost predicate Cheapest(t: Task, result: seq<ShortestPath>) {
    && (forall i, j :: 0 <= i < j < |result| ==> result[i].cost <= result[j].cost)
    && (forall p, i :: 0 <= i < |result| && Good(t, p) && !Returned(result, p) ==> result[i].cost <= CostOf(t, p))
  }

  /** What the K-shortest search promises. */
  ghost predicate KShortest(t: Task, k: int, result: seq<ShortestPath>) {
    && |result| <= (if k < 0 then 0 else k)
    && (forall i :: 0 <= i < |result| ==> Priced(t, result[i]))
    && (forall i, j :: 0 <= i < j < |result| ==> result[i].vertices != result[j].vertices)
    && (|result| < k ==> forall p :: Good(t, p) ==> Returned(result, p))
    && (Exact(t) ==> Cheapest(t, result))
  }

  // ---- Facts about the result list -------------------------------------------------------------

  lemma AppendAccepted(t: Task, result: seq<ShortestPath>, r: ShortestPath)
    requires Accepted(t, result) && Priced(t, r) && r.vertices !in Paths(result)
    requires Exact(t) ==> LeastBut(t, Paths(result), r)
    ensures Accepted(t, result + [r])
  {
    hide Priced, LeastBut;
    PathsAppend(result, r);
    var ps, ps' := Paths(result), Paths(result + [r]);
    forall i | 0 <= i < |result| + 1
      ensures Exact(t) ==> LeastBut(t, ps'[..i], (result + [r])[i])
    {
      assert ps'[..i] == ps[..i];
    }
  }

  lemma LeastIsLeast(t: Task, result: seq<ShortestPath>, i: nat, p: Path)
    requires Accepted(t, result) && Exact(t) && i < |result| && Good(t, p) && p !in Paths(result)[..i]
    ensures result[i].cost <= CostOf(t, p)
  {
    assert LeastBut(t, Paths(result)[..i], result[i]);
  }

  lemma LaterCostsMore(t: Task, result: seq<ShortestPath>, i: nat, j: nat)
    requires Accepted(t, result) && Exact(t) && i < j < |result|
    ensures result[i].cost <= result[j].cost
  {
    var ps := Paths(result);
    assert Priced(t, result[j]) && ps[j] !in ps[..i];
    LeastIsLeast(t, result, i, ps[j]);
  }

  lemma OutsideCostsMore(t: Task, result: seq<ShortestPath>, i: nat, p: Path)
    requires Accepted(t, result) && Exact(t) && i < |result| && Good(t, p) && !Returned(result, p)
    ensures result[i].cost <= CostOf(t, p)
  {
    hide Good;
    assert p !in Paths(result)[..i];
    LeastIsLeast(t, result, i, p);
  }

  lemma AcceptedIsCheapest(t: Task, result: seq<ShortestPath>)
    requires Accepted(t, result) && Exact(t)
    ensures Cheapest(t, result)
  {
    forall i, j | 0 <= i < j < |result|
      ensures result[i].cost <= result[j].cost
    {
      hide *;
      LaterCostsMore(t, result, i, j);
    }
    forall p, i | 0 <= i < |result| && Good(t, p) && !Returned(result, p)
      ensures result[i].cost <= CostOf(t, p)
    {
      hide *;
      OutsideCostsMore(t, result, i, p);
    }
  }

  lemma AcceptedAreApart(result: seq<ShortestPath>)
    requires Distinct(Paths(result))
    ensures forall i, j :: 0 <= i < j < |result| ==> result[i].vertices != result[j].vertices
  {
    hide Paths;
    forall i, j | 0 <= i < j < |result|
      ensures result[i].vertices != result[j].vertices
    {
      assert Paths(result)[i] != Paths(result)[j];
    }
  }

  lemma ReturnedPaths(result: seq<ShortestPath>)
    ensures forall p :: p in Paths(result) ==> Returned(result, p)
  {
    hide Paths;
    forall p | p in Paths(result)
      ensures Returned(result, p)
    {
      var i :| 0 <= i < |Paths(result)| && Paths(result)[i] == p;
      assert result[i].vertices == p;
    }
  }

  lemma AcceptedIsKShortest(t: Task, k: int, result: seq<ShortestPath>)
    requires Accepted(t, result) && |result| <= k
    requires |result| < k ==> forall p :: Good(t, p) ==> p in Paths(result)
    ensures KShortest(t, k, result)
  {
    hide Good, LeastBut, Priced, Exact, Cheapest, Returned;
    if Exact(t) {
      AcceptedIsCheapest(t, result);
    }
    AcceptedAreApart(result);
    ReturnedPaths(result);
  }

  // ---- One spur -------------------------------------------------------------------------------

  /** The root's own goal entry is dropped when an accepted path ends there; all others stand. */
  ghost predicate SpurGoals(table: seq<real>, goalSeed: seq<real>, v: int, ends: bool) {
    |table| == |goalSeed| && forall w :: 0 <= w < |table| ==> table[w] == if w == v && ends then -1.0 else goalSeed[w]
  }

  /** The goals a spur may end at: all but its own vertex, when an accepted path already ends there. */
  ghost function SpurEndpoints(goals: seq<SeededEndpoint>, v: int, ends: bool): seq<SeededEndpoint> {
    if goals == [] then []
    else
      var last := goals[|goals| - 1];
      SpurEndpoints(goals[..|goals| - 1], v, ends) + if ends && last.vertex == v then [] else [last]
  }

  /** The tables a spur search runs on are those built from scratch for its one source and its remaining goals. */
  ghost predicate FreshSpurTables(t: Task, ts: Task, goals: seq<SeededEndpoint>, root: Path, ends: bool)
    requires root != []
  {
    var v := root[|root| - 1];
    && IsSeedTable(ts.seed, [SeededEndpoint(v, 0.0, ArrivalHeading(t, root))], t.graph.vertices)
    && IsBearingTable(ts.srcBearing, [SeededEndpoint(v, 0.0, ArrivalHeading(t, root))], t.graph.vertices)
    && IsSeedTable(ts.goalSeed, SpurEndpoints(goals, v, ends), t.graph.vertices) && ts.goalBearing == t.goalBearing
  }

  lemma {:induction false} SpurEndpointSeed(goals: seq<SeededEndpoint>, v: int, ends: bool, w: int)
    requires SeedsNonNegative(goals)
    ensures SeedsNonNegative(SpurEndpoints(goals, v, ends))
    ensures SeedAt(SpurEndpoints(goals, v, ends), w) == if ends && w == v then -1.0 else SeedAt(goals, w)
  {
    hide SeedAt;
    if goals == [] {
      NoSeedAt(w);
    } else {
      var front, last := goals[..|goals| - 1], goals[|goals| - 1];
      SpurEndpointSeed(front, v, ends, w);
      assert goals == front + [last];
      SeedAtAppend(front, last, w);
      SeedAtAppend(SpurEndpoints(front, v, ends), last, w);
      assert SpurEndpoints(front, v, ends) + [] == SpurEndpoints(front, v, ends);
    }
  }

  lemma NoSeedAt(w: int)
    ensures SeedAt([], w) == -1.0
  {
  }

  lemma PatchedIsFresh(t: Task, ts: Task, goals: seq<SeededEndpoint>, root: Path, ends: bool)
    requires root != [] && ts.graph == t.graph && ts.goalBearing == t.goalBearing
    requires SeedsNonNegative(goals) && IsSeedTable(t.goalSeed, goals, t.graph.vertices)
    requires IsSeedTable(ts.seed, [SeededEndpoint(root[|root| - 1], 0.0, NO_BEARING)], t.graph.vertices)
    requires SpurGoals(ts.goalSeed, t.goalSeed, root[|root| - 1], ends)
    requires LoneBearing(ts.srcBearing, t.graph.vertices, root[|root| - 1], ArrivalHeading(t, root))
    ensures FreshSpurTables(t, ts, goals, root, ends)
  {
    hide SeedAt, BearingAt, ArrivalHeading;
    var v, h := root[|root| - 1], ArrivalHeading(t, root);
    forall w
      ensures SeedAt([SeededEndpoint(v, 0.0, h)], w) == SeedAt([SeededEndpoint(v, 0.0, NO_BEARING)], w)
      ensures BearingAt([SeededEndpoint(v, 0.0, h)], w) == if w == v then h else NO_BEARING
    {
      SpurSource(v, h, w);
      SpurSource(v, NO_BEARING, w);
    }
    forall w | 0 <= w < t.graph.vertices
      ensures ts.goalSeed[w] == SeedAt(SpurEndpoints(goals, v, ends), w)
    {
      SpurEndpointSeed(goals, v, ends, w);
    }
  }

  lemma SpurSource(v: int, h: real, w: int)
    ensures SeedAt([SeededEndpoint(v, 0.0, h)], w) == if w == v then 0.0 else -1.0
    ensures BearingAt([SeededEndpoint(v, 0.0, h)], w) == if w == v then h else NO_BEARING
  {
    assert [SeededEndpoint(v, 0.0, h)][..0] == [];
  }

  /** The arrival heading is the one the root's walk carries. */
  lemma HeadingIsCarried(t: Task, ts: Task, root: Path)
    requires root != [] && (WalkOf(t, root).Some? ==> InRange(t, root)) && |ts.srcBearing| == t.graph.vertices
    requires LoneBearing(ts.srcBearing, t.graph.vertices, root[|root| - 1], ArrivalHeading(t, root))
    ensures HeadingCarries(t, ts, root)
  {
    hide Hop;
  }

  /** A bearing table as freshly built for a lone source at v. */
  ghost predicate LoneBearing(table: seq<real>, n: nat, v: int, bearing: real) {
    |table| == n && forall w :: 0 <= w < n ==> table[w] == if w == v then bearing else NO_BEARING
  }

  /** The bans one spur adds: the continuations accepted paths take after the root. */
  method CollectBans(t: Task, result: seq<ShortestPath>, root: Path) returns (endsAtSpur: bool, banned: seq<EdgeKey>)
    requires root != [] && InRange(t, root) && AllGood(t, Paths(result))
    ensures endsAtSpur <==> Taken(Paths(result), root, END)
    ensures forall u, v :: t.graph.Has(u) && t.graph.Has(v) ==>
              (EdgeKey(u, v) in banned <==> u == root[|root| - 1] && Taken(Paths(result), root, v))
    ensures banned == Bans(Paths(result), root)
  {
    endsAtSpur, banned := false, [];
    var spur := root[|root| - 1];
    ghost var ps := Paths(result);
    for i := 0 to |result|
      invariant endsAtSpur <==> Taken(ps[..i], root, END)
      invariant forall u, v :: t.graph.Has(u) && t.graph.Has(v) ==>
                  (EdgeKey(u, v) in banned <==> u == spur && Taken(ps[..i], root, v))
      invariant banned == Bans(ps[..i], root)
    {
      var p := result[i].vertices;
      assert ps[i] == p && ps[i] in ps;
      GoodFacts(t, p);
      TakenStep(ps, i, root);
      BansStep(ps, i, root);
      hide Taken, Good, Bans, Paths;
      if root <= p {
        if |p| == |root| {
          endsAtSpur := true;
        } else {
          banned := banned + [EdgeKey(spur, p[|root|])];
        }
      }
    }
    assert ps[..|result|] == ps;
  }

  lemma TakenStep(ps: seq<Path>, i: nat, root: Path)
    requires i < |ps|
    ensures forall x :: Taken(ps[..i + 1], root, x) <==> Taken(ps[..i], root, x) || (root <= ps[i] && Next(ps[i], root) == x)
  {
    assert ps[..i + 1] == ps[..i] + [ps[i]];
    forall x
      ensures Taken(ps[..i + 1], root, x) <==> Taken(ps[..i], root, x) || (root <= ps[i] && Next(ps[i], root) == x)
    {
      TakenAppend(ps[..i], ps[i], root, x);
    }
  }

  lemma BansStep(ps: seq<Path>, i: nat, root: Path)
    requires i < |ps| && root != []
    ensures Bans(ps[..i + 1], root) == Bans(ps[..i], root) + if root < ps[i] then [EdgeKey(root[|root| - 1], ps[i][|root|])] else []
  {
    assert ps[..i + 1][..i] == ps[..i];
  }

  /** A spur's answer, read as a statement about its root's class. */
  ghost predicate AnswersClass(t: Task, accepted: seq<Path>, root: Path, spur: ShortestPath) {
    if spur.found then
      && InClass(t, accepted, root, Stitch(root, spur.vertices))
      && (Exact(t) ==> forall p :: InClass(t, accepted, root, p) ==> CostOf(t, Stitch(root, spur.vertices)) <= CostOf(t, p))
    else forall p :: !InClass(t, accepted, root, p)
  }

  lemma FoundCost(t: Task, r: ShortestPath)
    requires Answers(t, r) && r.found
    ensures r.cost == CostOf(t, r.vertices)
  {
  }

  lemma SpurAnswersClass(t: Task, ts: Task, accepted: seq<Path>, root: Path, spur: ShortestPath)
    requires IsSpurTask(t, ts, accepted, root) && WalkOf(t, root).Some? && Simple(root)
    requires Answers(ts, spur)
    ensures AnswersClass(t, accepted, root, spur)
  {
    hide IsSpurTask, InClass, WalkOf, Stitch, CostOf, Simple;
    SpurGraph(t, ts, accepted, root);
    SameExactness(t, ts);
    if spur.found {
      SpurIsSound(t, ts, accepted, root, spur.vertices);
    }
    forall p | InClass(t, accepted, root, p)
      ensures spur.found && (Exact(t) ==> CostOf(t, Stitch(root, spur.vertices)) <= CostOf(t, p))
    {
      var tail := SpurIsComplete(t, ts, accepted, root, p);
      assert Accepts(ts, tail);
      assert spur.found;
      FoundCost(ts, spur);
    }
  }

  lemma SourceSpurAnswersClass(t: Task, ts: Task, accepted: seq<Path>, spur: ShortestPath)
    requires IsSourceSpurTask(t, ts, accepted) && Answers(ts, spur)
    ensures AnswersClass(t, accepted, [], spur)
  {
    hide WalkOf, Taken;
    assert Exact(t) == Exact(ts);
    if spur.found {
      SourceSpurIsClass(t, ts, accepted, spur.vertices);
    }
    forall p | InClass(t, accepted, [], p)
      ensures spur.found && (Exact(t) ==> CostOf(t, spur.vertices) <= CostOf(t, p))
    {
      SourceSpurIsClass(t, ts, accepted, p);
    }
  }

  /** Stitches a found tail onto the root, re-costs the whole path, and puts it into the candidate set. */
  method AddCandidate(t: Task, ghost sources: seq<SeededEndpoint>, ghost goals: seq<SeededEndpoint>, ghost accepted: seq<Path>,
                      ghost latest: Path, i: int, root: Path, spur: ShortestPath, cs: seq<Candidate>) returns (out: seq<Candidate>)
    requires Sorted(cs) && Spurring(t, accepted, Members(cs), latest, i)
    requires Waits(t, sources, goals, accepted, Members(cs), latest, i)
    requires -1 <= i < |latest| && spur == SpurAnswer(t, sources, goals, accepted, latest[..i + 1])
    requires -1 <= i < |latest| && root == latest[..i + 1] && AnswersClass(t, accepted, root, spur)
    requires spur.found ==> spur.vertices != []
    ensures Sorted(out) && Spurring(t, accepted, Members(out), latest, i + 1)
    ensures Waits(t, sources, goals, accepted, Members(out), latest, i + 1)
  {
    hide Spurring, Waits, SpurAnswer, InClass, RecostOf, TotalOf, Members, Sorted, Candidate.Root;
    if !spur.found || spur.vertices == [] {
      EmptySpur(t, accepted, Members(cs), latest, i, root);
      WaitsSkips(t, sources, goals, accepted, Members(cs), latest, i);
      return cs;
    }
    var total := (if root == [] then [] else root[..|root| - 1]) + spur.vertices;
    assert total == Stitch(root, spur.vertices);
    StitchedIsRecosted(t, accepted, root, total);
    var ok, cost, distance := CostOfPathMulti(t, total);
    var c := Candidate(cost, distance, total, i);
    out := Insert(cs, c);
    SpurIsNew(t, accepted, Members(cs), latest, i, c);
    NoTwin(cs, c);
    AddSpur(t, accepted, Members(cs), latest, i, root, c);
    CandidateIsAnswer(t, sources, goals, accepted, latest, i, c);
    WaitsGrows(t, sources, goals, accepted, Members(cs), latest, i, c);
  }

  lemma CandidateIsAnswer(t: Task, sources: seq<SeededEndpoint>, goals: seq<SeededEndpoint>, accepted: seq<Path>, latest: Path,
                          i: int, c: Candidate)
    requires -1 <= i < |latest| && c.deviation == i && InClass(t, accepted, latest[..i + 1], c.vertices)
    requires var spur := SpurAnswer(t, sources, goals, accepted, latest[..i + 1]);
             spur.found && c.vertices == Stitch(latest[..i + 1], spur.vertices)
    ensures c.Root() == latest[..i + 1] && Answered(t, sources, goals, accepted, c)
  {
    hide SpurAnswer;
    RootIsProper(t, accepted, latest, i, c.vertices);
  }

  /** A class member is in range, and its re-cost is its search cost. */
  lemma StitchedIsRecosted(t: Task, accepted: seq<Path>, root: Path, p: Path)
    requires InClass(t, accepted, root, p)
    ensures InRange(t, p) && RecostOf(t, p) == TotalOf(t, p) && TotalOf(t, p).Some? && CostOf(t, p) == TotalOf(t, p).value.cost
  {
    hide RecostOf, WalkOf;
    WalkInRange(t, p);
    RecostAgreesWithSearch(t, p);
  }

  lemma NoTwin(cs: seq<Candidate>, c: Candidate)
    requires forall d :: d in Members(cs) ==> d.vertices != c.vertices
    ensures !exists d :: d in cs && d.cost == c.cost && d.vertices == c.vertices
  {
  }

  lemma MergedTask(t: Task, ts: Task, accepted: seq<Path>, root: Path, nodes: seq<int>, edges: seq<EdgeKey>,
                   yenEdges: seq<EdgeKey>, ends: bool)
    requires root != [] && ts.graph == t.graph
    requires ts.opts == t.opts.(nodeFilter := t.opts.nodeFilter.(banned := nodes), edgeFilter := EdgeFilter(edges))
    requires forall v :: v in nodes <==> v in t.opts.nodeFilter.banned || v in root[..|root| - 1]
    requires forall x :: x in edges <==> x in t.opts.edgeFilter.banned || x in yenEdges
    requires forall u, v :: t.graph.Has(u) && t.graph.Has(v) ==>
               (EdgeKey(u, v) in yenEdges <==> u == root[|root| - 1] && Taken(accepted, root, v))
    requires ends <==> Taken(accepted, root, END)
    requires t.graph.Has(root[|root| - 1])
    requires IsSeedTable(ts.seed, [SeededEndpoint(root[|root| - 1], 0.0, NO_BEARING)], t.graph.vertices)
    requires SpurGoals(ts.goalSeed, t.goalSeed, root[|root| - 1], ends)
    requires ts.goalBearing == t.goalBearing && HeadingCarries(t, ts, root)
    ensures IsSpurTask(t, ts, accepted, root)
  {
    hide Taken, HeadingCarries;
    LoneSeed(root[|root| - 1]);
  }

  lemma LoneSeed(u: int)
    ensures forall v :: SeedAt([SeededEndpoint(u, 0.0, NO_BEARING)], v) == if v == u then 0.0 else -1.0
  {
    var es := [SeededEndpoint(u, 0.0, NO_BEARING)];
    assert es[..0] == [];
  }

  lemma GoalsStayCovered(t: Task, ts: Task, goals: seq<SeededEndpoint>, v: int, ends: bool)
    requires GoalsCovered(t, goals) && SpurGoals(ts.goalSeed, t.goalSeed, v, ends)
    ensures GoalsCovered(ts, goals)
  {
    forall w | ts.GoalSeedOf(w) >= 0.0
      ensures ts.GoalSeedOf(w) == SeedAt(goals, w)
    {
      assert ts.GoalSeedOf(w) == t.GoalSeedOf(w);
    }
  }

  /**
   * Runs the spur search at the end of `root` with the merged bans and the patched tables. It answers as a search on
   * tables built from scratch would, and what it reports is what the stitched path pays beyond the root.
   */
  method SearchSpur(t: Task, result: seq<ShortestPath>, root: Path, yenEdges: seq<EdgeKey>, endsAtSpur: bool,
                    spurGoalSeed: seq<real>, spurSourceBearing: seq<real>,
                    heuristic: MultiGoalHeuristic, ws: SearchWorkspace) returns (spur: ShortestPath, ghost searched: Task)
    requires root != [] && t.graph.Has(root[|root| - 1]) && WalkOf(t, root).Some? && Simple(root)
    requires endsAtSpur <==> Taken(Paths(result), root, END)
    requires forall u, v :: t.graph.Has(u) && t.graph.Has(v) ==>
               (EdgeKey(u, v) in yenEdges <==> u == root[|root| - 1] && Taken(Paths(result), root, v))
    requires yenEdges == Bans(Paths(result), root)
    requires SpurGoals(spurGoalSeed, t.goalSeed, root[|root| - 1], endsAtSpur)
    requires LoneBearing(spurSourceBearing, t.graph.vertices, root[|root| - 1], ArrivalHeading(t, root))
    requires ws.Valid() && ws.generation + 1 < GENERATIONS
    requires heuristic.Valid() && heuristic.graph == t.graph
    requires SeedsNonNegative(heuristic.goals) && IsSeedTable(t.goalSeed, heuristic.goals, t.graph.vertices)
    modifies ws, heuristic
    ensures ws.Valid() && heuristic.Valid() && ws.generation <= old(ws.generation) + 1
    ensures AnswersClass(t, Paths(result), root, spur) && (spur.found ==> spur.vertices != [])
    ensures searched == SpurTask(t, Paths(result), root)
    ensures IsSpurTask(t, searched, Paths(result), root) && FreshSpurTables(t, searched, heuristic.goals, root, endsAtSpur)
    ensures spur == SearchResult(searched, [SeededEndpoint(root[|root| - 1], 0.0, NO_BEARING)], heuristic.goals)
    ensures spur.found ==> CostOf(t, Stitch(root, spur.vertices)) == WalkOf(t, root).value.cost + spur.cost
  {
    hide Taken, WalkOf, Simple, AnswersClass, SearchWorkspace.Valid, MultiGoalHeuristic.Valid;
    hide Settles, IsSpurTask, FreshSpurTables, SearchResult, ArrivalHeading, HeadingCarries, Stitch, CostOf, SeedAt, Bans, InOrder, SpurTask;
    var spurNode := root[|root| - 1];
    var nodes := MergeBanned(t.opts.nodeFilter.banned, root[..|root| - 1], VertexBefore);
    var edges := MergeBanned(t.opts.edgeFilter.banned, yenEdges, KeyBefore);
    var spurOpts := t.opts.(nodeFilter := t.opts.nodeFilter.(banned := nodes), edgeFilter := EdgeFilter(edges));
    var sources := [SeededEndpoint(spurNode, 0.0, NO_BEARING)];
    var seed := BuildSeedTable(sources, t.graph.vertices);
    var ts: Task := TaskData(t.graph, spurOpts, seed, spurGoalSeed, spurSourceBearing, t.goalBearing);
    searched := ts;
    WalkInRange(t, root);
    HeadingIsCarried(t, ts, root);
    TablesAreSpurTask(t, ts, Paths(result), root, endsAtSpur);
    MergedTask(t, ts, Paths(result), root, nodes, edges, yenEdges, endsAtSpur);
    PatchedIsFresh(t, ts, heuristic.goals, root, endsAtSpur);
    GoalsAreCovered(t, heuristic.goals);
    GoalsStayCovered(t, ts, heuristic.goals, spurNode, endsAtSpur);
    spur := FindShortestPathMulti(ts, sources, heuristic, ws);
    SpurAnswersClass(t, ts, Paths(result), root, spur);
    if spur.found {
      SpurCost(t, ts, Paths(result), root, spur);
    }
    FoundIsNotEmpty(ts, spur);
  }

  lemma TablesAreSpurTask(t: Task, ts: Task, accepted: seq<Path>, root: Path, ends: bool)
    requires root != [] && t.graph.Has(root[|root| - 1]) && ts.graph == t.graph && ts.goalBearing == t.goalBearing
    requires ts.opts == t.opts.(
                          nodeFilter := t.opts.nodeFilter.(banned := InOrder(t.opts.nodeFilter.banned + root[..|root| - 1], VertexBefore)),
                          edgeFilter := EdgeFilter(InOrder(t.opts.edgeFilter.banned + Bans(accepted, root), KeyBefore)))
    requires ends <==> Taken(accepted, root, END)
    requires IsSeedTable(ts.seed, [SeededEndpoint(root[|root| - 1], 0.0, NO_BEARING)], t.graph.vertices)
    requires SpurGoals(ts.goalSeed, t.goalSeed, root[|root| - 1], ends)
    requires LoneBearing(ts.srcBearing, t.graph.vertices, root[|root| - 1], ArrivalHeading(t, root))
    ensures ts == SpurTask(t, accepted, root)
  {
    hide Taken, InOrder, Bans, ArrivalHeading;
    LoneSeed(root[|root| - 1]);
    var spur := SpurTask(t, accepted, root);
    assert ts.seed == spur.seed && ts.goalSeed == spur.goalSeed && ts.srcBearing == spur.srcBearing;
  }

  lemma GoalsAreCovered(t: Task, goals: seq<SeededEndpoint>)
    requires SeedsNonNegative(goals) && IsSeedTable(t.goalSeed, goals, t.graph.vertices)
    ensures GoalsCovered(t, goals)
  {
  }

  /** The spur's reported cost is what the stitched path pays beyond the root, turns included. */
  lemma SpurCost(t: Task, ts: Task, accepted: seq<Path>, root: Path, spur: ShortestPath)
    requires IsSpurTask(t, ts, accepted, root) && WalkOf(t, root).Some? && Simple(root) && Answers(ts, spur) && spur.found
    ensures CostOf(t, Stitch(root, spur.vertices)) == WalkOf(t, root).value.cost + spur.cost
  {
    hide IsSpurTask, WalkOf, Stitch, CostOf, Simple;
    SpurIsSound(t, ts, accepted, root, spur.vertices);
    FoundCost(ts, spur);
  }

  lemma FoundIsNotEmpty(t: Task, r: ShortestPath)
    requires Answers(t, r)
    ensures r.found ==> r.vertices != []
  {
  }

  // ---- The spur loop --------------------------------------------------------------------------

  lemma SeedAtAppend(es: seq<SeededEndpoint>, e: SeededEndpoint, v: int)
    requires SeedsNonNegative(es)
    ensures SeedAt(es + [e], v) ==
            if e.vertex == v && (SeedAt(es, v) < 0.0 || e.cost < SeedAt(es, v)) then e.cost else SeedAt(es, v)
  {
    assert (es + [e])[..|es|] == es;
    var c := CheapestAt(es, v);
    if c.Some? {
      assert es[c.value].cost >= 0.0;
    }
  }

  /** The sources whose fix no accepted path starts from. */
  method UnusedSources(t: Task, sources: seq<SeededEndpoint>, result: seq<ShortestPath>) returns (kept: seq<SeededEndpoint>)
    requires SeedsNonNegative(sources) && AllGood(t, Paths(result))
    ensures SeedsNonNegative(kept) && kept == Unused(sources, Paths(result))
    ensures forall v :: SeedAt(kept, v) == if Taken(Paths(result), [], v) then -1.0 else SeedAt(sources, v)
  {
    var bannedSources := Fronts(t, result);
    kept := [];
    for i := 0 to |sources|
      invariant SeedsNonNegative(kept)
      invariant forall v :: SeedAt(kept, v) == if v in bannedSources then -1.0 else SeedAt(sources[..i], v)
      invariant kept == Unused(sources[..i], Paths(result))
    {
      assert sources[..i + 1] == sources[..i] + [sources[i]];
      UnusedStep(sources, Paths(result), i);
      EndpointAdds(sources[..i], sources[i]);
      EndpointAdds(kept, sources[i]);
      hide SeedAt, Unused;
      if sources[i].vertex !in bannedSources {
        kept := kept + [sources[i]];
      }
    }
    assert sources[..|sources|] == sources;
    StartsNowhere(t, Paths(result));
  }

  lemma EndpointAdds(es: seq<SeededEndpoint>, e: SeededEndpoint)
    requires SeedsNonNegative(es)
    ensures forall v :: SeedAt(es + [e], v) ==
                        if e.vertex == v && (SeedAt(es, v) < 0.0 || e.cost < SeedAt(es, v)) then e.cost else SeedAt(es, v)
  {
    hide SeedAt;
    forall v
      ensures SeedAt(es + [e], v) ==
              if e.vertex == v && (SeedAt(es, v) < 0.0 || e.cost < SeedAt(es, v)) then e.cost else SeedAt(es, v)
    {
      SeedAtAppend(es, e, v);
    }
  }

  lemma UnusedStep(sources: seq<SeededEndpoint>, accepted: seq<Path>, i: nat)
    requires i < |sources|
    ensures Unused(sources[..i + 1], accepted) ==
            Unused(sources[..i], accepted) + if Taken(accepted, [], sources[i].vertex) then [] else [sources[i]]
  {
    assert sources[..i + 1][..i] == sources[..i];
  }

  /** The first vertices of the accepted paths. */
  method Fronts(t: Task, result: seq<ShortestPath>) returns (fronts: seq<int>)
    requires AllGood(t, Paths(result))
    ensures forall v :: v in fronts <==> Taken(Paths(result), [], v)
  {
    fronts := [];
    ghost var ps := Paths(result);
    for i := 0 to |result|
      invariant forall v :: v in fronts <==> Taken(ps[..i], [], v)
    {
      assert ps[i] in ps && ps[i] == result[i].vertices;
      GoodFacts(t, ps[i]);
      TakenStep(ps, i, []);
      hide Taken, Good;
      assert [] <= ps[i] && Next(ps[i], []) == ps[i][0];
      fronts := fronts + [result[i].vertices[0]];
    }
    assert ps[..|result|] == ps;
  }

  lemma StartsNowhere(t: Task, accepted: seq<Path>)
    requires AllGood(t, accepted)
    ensures !Taken(accepted, [], END)
  {
    if Taken(accepted, [], END) {
      var a :| a in accepted && [] <= a && Next(a, []) == END;
      GoodFacts(t, a);
    }
  }

  /** The tables of one Yen run, built once from the endpoints. */
  ghost predicate RunTables(t: Task, sources: seq<SeededEndpoint>, goals: seq<SeededEndpoint>) {
    && SeedsNonNegative(sources) && SeedsNonNegative(goals)
    && IsSeedTable(t.seed, sources, t.graph.vertices) && IsSeedTable(t.goalSeed, goals, t.graph.vertices)
  }

  lemma TablesCoverGoals(t: Task, sources: seq<SeededEndpoint>, goals: seq<SeededEndpoint>)
    requires RunTables(t, sources, goals)
    ensures GoalsCovered(t, goals) && SeedsNonNegative(goals) && IsSeedTable(t.goalSeed, goals, t.graph.vertices)
  {
  }

  /** The super-source spur: a different starting fix must be chosen. */
  method SpurAtSource(t: Task, sources: seq<SeededEndpoint>, result: seq<ShortestPath>, latest: Path,
                      cs: seq<Candidate>, heuristic: MultiGoalHeuristic, ws: SearchWorkspace)
    returns (out: seq<Candidate>)
    requires RunTables(t, sources, heuristic.goals) && ws.Valid() && ws.generation + 1 < GENERATIONS
    requires heuristic.Valid() && heuristic.graph == t.graph
    requires Sorted(cs) && Spurring(t, Paths(result), Members(cs), latest, -1)
    requires Waits(t, sources, heuristic.goals, Paths(result), Members(cs), latest, -1)
    modifies ws, heuristic
    ensures ws.Valid() && heuristic.Valid() && ws.generation <= old(ws.generation) + 1
    ensures Sorted(out) && Spurring(t, Paths(result), Members(out), latest, 0)
    ensures Waits(t, sources, heuristic.goals, Paths(result), Members(out), latest, 0)
  {
    hide Waits, SpurAnswer, SearchResult, Settles, Unused;
    hide Taken, Members, Sorted, SeedAt, Answers, GoalsCovered, InClass, InTrie, Covered;
    var spurSources := UnusedSources(t, sources, result);
    var seed := BuildSeedTable(spurSources, t.graph.vertices);
    var ts: Task := TaskData(t.graph, t.opts, seed, t.goalSeed, t.srcBearing, t.goalBearing);
    TablesCoverGoals(t, sources, heuristic.goals);
    SameGoals(t, ts, heuristic.goals);
    var spur := NOT_FOUND;
    if spurSources == [] {
      NoSeeds(ts);
      NoSourceNoPath(ts);
    } else {
      spur := FindShortestPathMulti(ts, spurSources, heuristic, ws);
    }
    SourceSpurAnswersClass(t, ts, Paths(result), spur);
    FoundIsNotEmpty(ts, spur);
    SourceAnswer(t, sources, heuristic.goals, Paths(result), ts);
    out := AddCandidate(t, sources, heuristic.goals, Paths(result), latest, -1, [], spur, cs);
  }

  lemma SourceAnswer(t: Task, sources: seq<SeededEndpoint>, goals: seq<SeededEndpoint>, accepted: seq<Path>, ts: Task)
    requires IsSeedTable(ts.seed, Unused(sources, accepted), t.graph.vertices)
    requires ts == TaskData(t.graph, t.opts, ts.seed, t.goalSeed, t.srcBearing, t.goalBearing)
    ensures SpurAnswer(t, sources, goals, accepted, []) == SearchResult(ts, Unused(sources, accepted), goals)
    ensures Unused(sources, accepted) == [] ==> SpurAnswer(t, sources, goals, accepted, []) == NOT_FOUND
  {
    hide Unused, SeedAt;
    assert SourceTask(t, sources, accepted).seed == ts.seed;
  }

  lemma NoSeeds(t: Task)
    requires IsSeedTable(t.seed, [], t.graph.vertices)
    ensures forall v :: t.SeedOf(v) < 0.0
  {
  }

  lemma SameGoals(t: Task, ts: Task, goals: seq<SeededEndpoint>)
    requires GoalsCovered(t, goals) && ts.goalSeed == t.goalSeed
    ensures GoalsCovered(ts, goals)
  {
    assert forall v :: ts.GoalSeedOf(v) == t.GoalSeedOf(v);
  }

  lemma {:induction false} AnyGoalCounts(table: seq<real>, v: nat)
    requires v < |table| && table[v] >= 0.0
    ensures GoalCount(table) >= 1
  {
    if v < |table| - 1 {
      AnyGoalCounts(table[..|table| - 1], v);
    }
  }

  lemma {:induction false} TwoGoalsCount(table: seq<real>, v: nat, w: nat)
    requires v < w < |table| && table[v] >= 0.0 && table[w] >= 0.0
    ensures GoalCount(table) >= 2
  {
    if w < |table| - 1 {
      TwoGoalsCount(table[..|table| - 1], v, w);
    } else {
      AnyGoalCounts(table[..|table| - 1], v);
    }
  }

  method CountGoals(table: seq<real>) returns (count: nat)
    ensures count == GoalCount(table)
  {
    count := 0;
    for i := 0 to |table|
      invariant count == GoalCount(table[..i])
    {
      assert table[..i + 1][..i] == table[..i];
      if table[i] >= 0.0 {
        count := count + 1;
      }
    }
    assert table[..|table|] == table;
  }

  lemma LoneGoal(t: Task, v: int)
    requires t.graph.Has(v) && t.goalSeed[v] >= 0.0 && GoalCount(t.goalSeed) < 2
    ensures forall w :: t.GoalSeedOf(w) >= 0.0 ==> w == v
  {
    forall w | t.GoalSeedOf(w) >= 0.0
      ensures w == v
    {
      if w < v {
        TwoGoalsCount(t.goalSeed, w, v);
      } else if v < w {
        TwoGoalsCount(t.goalSeed, v, w);
      }
    }
  }

  /** A bearing table with at most one live entry. */
  ghost predicate OneBearing(table: seq<real>, n: nat, v: int) {
    |table| == n && (v == NO_VERTEX || 0 <= v < n) && forall w :: 0 <= w < n && w != v ==> table[w] == NO_BEARING
  }

  /** The root of a spur is a simple walk that ends on the graph. */
  lemma RootFacts(t: Task, latest: Path, i: nat)
    requires Good(t, latest) && i < |latest|
    ensures var root := latest[..i + 1];
            && WalkOf(t, root).Some? && Simple(root) && InRange(t, root) && root != []
            && root[|root| - 1] == latest[i] && t.graph.Has(latest[i])
            && (i > 0 ==> t.graph.Has(latest[i - 1]))
  {
    hide WalkOf, Finish;
    WalkPrefix(t, latest, i + 1);
    WalkInRange(t, latest);
  }

  /** The spur at position i of the latest path; the goal table is patched for the search and restored after it. */
  method SpurAtVertex(t: Task, ghost sources: seq<SeededEndpoint>, goalCount: nat, result: seq<ShortestPath>, latest: Path, i: nat, cs: seq<Candidate>,
                      spurGoalSeed: seq<real>, spurSourceBearing: seq<real>, bearingVertex: int,
                      heuristic: MultiGoalHeuristic, ws: SearchWorkspace)
    returns (out: seq<Candidate>, goalTable: seq<real>, bearingTable: seq<real>, liveVertex: int)
    requires ws.Valid() && ws.generation + 1 < GENERATIONS
    requires heuristic.Valid() && heuristic.graph == t.graph
    requires SeedsNonNegative(heuristic.goals) && IsSeedTable(t.goalSeed, heuristic.goals, t.graph.vertices)
    requires goalCount == GoalCount(t.goalSeed) && spurGoalSeed == t.goalSeed
    requires OneBearing(spurSourceBearing, t.graph.vertices, bearingVertex)
    requires Sorted(cs) && i < |latest| && Good(t, latest) && AllGood(t, Paths(result))
    requires Spurring(t, Paths(result), Members(cs), latest, i)
    requires Waits(t, sources, heuristic.goals, Paths(result), Members(cs), latest, i)
    modifies ws, heuristic
    ensures ws.Valid() && heuristic.Valid() && ws.generation <= old(ws.generation) + 1
    ensures goalTable == t.goalSeed && OneBearing(bearingTable, t.graph.vertices, liveVertex)
    ensures Sorted(out) && Spurring(t, Paths(result), Members(out), latest, i + 1)
    ensures Waits(t, sources, heuristic.goals, Paths(result), Members(out), latest, i + 1)
  {
    hide Spurring, Taken, Members, Sorted, WalkOf, Simple, Good, InClass, GoalsCovered, GoalCount, AnswersClass;
    hide IsSpurTask, FreshSpurTables, SearchResult, SeedAt, Waits, Bans, SpurTask;
    goalTable, bearingTable, liveVertex := spurGoalSeed, spurSourceBearing, bearingVertex;
    RootFacts(t, latest, i);
    var spurNode := latest[i];
    var root := latest[..i + 1];
    var endsAtSpur, yenEdges := CollectBans(t, result, root);
    if endsAtSpur && t.goalSeed[spurNode] >= 0.0 && goalCount < 2 {
      LoneGoal(t, spurNode);
      forall p ensures !InClass(t, Paths(result), root, p) {
        LoneGoalSpurIsEmpty(t, Paths(result), root, p);
      }
      EmptySpur(t, Paths(result), Members(cs), latest, i, root);
      WaitsSkips(t, sources, heuristic.goals, Paths(result), Members(cs), latest, i);
      return cs, goalTable, bearingTable, liveVertex;
    }
    if liveVertex >= 0 {
      bearingTable := bearingTable[liveVertex := NO_BEARING];
    }
    var inbound := if i == 0 then t.srcBearing[spurNode] else t.graph.Bearing(latest[i - 1], spurNode);
    bearingTable := bearingTable[spurNode := inbound];
    liveVertex := spurNode;
    if endsAtSpur {
      goalTable := goalTable[spurNode := -1.0];
    }
    var spur;
    ghost var searched;
    spur, searched := SearchSpur(t, result, root, yenEdges, endsAtSpur, goalTable, bearingTable, heuristic, ws);
    goalTable := goalTable[spurNode := t.goalSeed[spurNode]];
    out := AddCandidate(t, sources, heuristic.goals, Paths(result), latest, i, root, spur, cs);
  }

  // ---- The whole run --------------------------------------------------------------------------

  /** Searches a run may need: one to start, and one per spur of at most n + 1 spurs a round. */
  ghost function SearchBudget(n: nat, rounds: nat): nat {
    if rounds == 0 then 1 else SearchBudget(n, rounds - 1) + n + 1
  }

  lemma {:induction false} BudgetGrows(n: nat, a: nat, b: nat)
    requires a <= b
    ensures SearchBudget(n, a) <= SearchBudget(n, b)
    decreases b
  {
    if a < b {
      BudgetGrows(n, a, b - 1);
    }
  }

  /** One round of spurs over the latest path, from its deviation index on. */
  method SpurRound(t: Task, sources: seq<SeededEndpoint>, goalCount: nat, result: seq<ShortestPath>, deviation: int,
                   candidates: seq<Candidate>, spurGoalSeed: seq<real>, spurSourceBearing: seq<real>, bearingVertex: int,
                   heuristic: MultiGoalHeuristic, ws: SearchWorkspace)
    returns (cs: seq<Candidate>, goalTable: seq<real>, bearingTable: seq<real>, liveVertex: int)
    requires RunTables(t, sources, heuristic.goals)
    requires ws.Valid() && ws.generation + t.graph.vertices + 1 < GENERATIONS
    requires heuristic.Valid() && heuristic.graph == t.graph
    requires goalCount == GoalCount(t.goalSeed) && spurGoalSeed == t.goalSeed
    requires OneBearing(spurSourceBearing, t.graph.vertices, bearingVertex)
    requires result != [] && Sorted(candidates) && deviation >= -1
    requires Spurring(t, Paths(result), Members(candidates), result[|result| - 1].vertices, deviation)
    requires Waits(t, sources, heuristic.goals, Paths(result), Members(candidates), result[|result| - 1].vertices, deviation)
    modifies ws, heuristic
    ensures ws.Valid() && heuristic.Valid() && ws.generation <= old(ws.generation) + t.graph.vertices + 1
    ensures goalTable == t.goalSeed && OneBearing(bearingTable, t.graph.vertices, liveVertex)
    ensures var latest := result[|result| - 1].vertices;
            && Sorted(cs) && Spurring(t, Paths(result), Members(cs), latest, |latest|)
            && Waits(t, sources, heuristic.goals, Paths(result), Members(cs), latest, |latest|)
  {
    hide Spurring, Waits, OneBearing, RunTables, Members, Sorted, GoalCount, GoalsCovered, SeedsNonNegative, IsSeedTable;
    cs, goalTable, bearingTable, liveVertex := candidates, spurGoalSeed, spurSourceBearing, bearingVertex;
    var latest := result[|result| - 1].vertices;
    SpurringFacts(t, Paths(result), Members(cs), latest, deviation);
    TablesCoverGoals(t, sources, heuristic.goals);
    var i := deviation;
    while i < |latest|
      invariant deviation <= i && (i <= |latest| || i == deviation)
      invariant ws.Valid() && heuristic.Valid() && ws.generation <= old(ws.generation) + i - deviation
      invariant goalTable == t.goalSeed && OneBearing(bearingTable, t.graph.vertices, liveVertex)
      invariant Sorted(cs) && Spurring(t, Paths(result), Members(cs), latest, i)
      invariant Waits(t, sources, heuristic.goals, Paths(result), Members(cs), latest, i)
    {
      if i < 0 {
        cs := SpurAtSource(t, sources, result, latest, cs, heuristic, ws);
      } else {
        cs, goalTable, bearingTable, liveVertex :=
          SpurAtVertex(t, sources, goalCount, result, latest, i, cs, goalTable, bearingTable, liveVertex, heuristic, ws);
      }
      i := i + 1;
    }
    PastTheEnd(t, sources, heuristic.goals, Paths(result), Members(cs), latest, i);
  }

  lemma SpurringFacts(t: Task, accepted: seq<Path>, cs: set<Candidate>, latest: Path, i: int)
    requires Spurring(t, accepted, cs, latest, i)
    ensures AllGood(t, accepted) && Good(t, latest) && |latest| <= t.graph.vertices
  {
    GoodFacts(t, latest);
    SimpleIsBounded(latest, t.graph.vertices);
  }

  /** Beyond the latest path's end nothing is pending, wherever the loop stopped. */
  lemma PastTheEnd(t: Task, sources: seq<SeededEndpoint>, goals: seq<SeededEndpoint>, accepted: seq<Path>, cs: set<Candidate>,
                   latest: Path, i: int)
    requires Spurring(t, accepted, cs, latest, i) && i >= |latest| && Waits(t, sources, goals, accepted, cs, latest, i)
    ensures Spurring(t, accepted, cs, latest, |latest|) && Waits(t, sources, goals, accepted, cs, latest, |latest|)
  {
    hide CandidateOk, InTrie, Covered, SpurAnswer, Answered;
    assert forall r :: !Pending(latest, i, r) && !Pending(latest, |latest|, r);
  }

  /** The cheapest waiting candidate becomes the next result. */
  lemma AcceptNext(t: Task, sources: seq<SeededEndpoint>, goals: seq<SeededEndpoint>, result: seq<ShortestPath>, cs: seq<Candidate>,
                   next: ShortestPath)
    requires Accepted(t, result) && result != [] && Sorted(cs) && cs != []
    requires var latest := result[|result| - 1].vertices;
             && Spurring(t, Paths(result), Members(cs), latest, |latest|)
             && Waits(t, sources, goals, Paths(result), Members(cs), latest, |latest|)
    requires next == ShortestPath(cs[0].vertices, cs[0].distance, cs[0].cost, true)
    ensures Accepted(t, result + [next]) && cs[0].deviation >= -1
    ensures Sorted(cs[1..])
    ensures Spurring(t, Paths(result + [next]), Members(cs[1..]), next.vertices, cs[0].deviation)
    ensures Waits(t, sources, goals, Paths(result + [next]), Members(cs[1..]), next.vertices, cs[0].deviation)
    ensures FirstOffered(t, sources, goals, Paths(result), next.vertices)
  {
    hide *;
    var latest, best := result[|result| - 1].vertices, cs[0];
    FirstIsLeast(cs);
    assert best in Members(cs);
    FirstWaitsIsFirst(t, sources, goals, Paths(result), cs, latest);
    WaitsOn(t, sources, goals, Paths(result), Members(cs), latest, best);
    AcceptBest(t, Paths(result), Members(cs), latest, best);
    PathsAppend(result, next);
    BestIsPriced(t, Paths(result), Members(cs), latest, best, next);
    forall p | Good(t, p) && p !in Paths(result)
      ensures Exact(t) ==> next.cost <= CostOf(t, p)
    {
      var c := CandidateFor(t, Paths(result), Members(cs), latest, p);
    }
    LeastButIntro(t, Paths(result), next);
    AppendAccepted(t, result, next);
  }

  lemma LeastButIntro(t: Task, accepted: seq<Path>, r: ShortestPath)
    requires forall p :: Good(t, p) && p !in accepted ==> Exact(t) ==> r.cost <= CostOf(t, p)
    ensures Exact(t) ==> LeastBut(t, accepted, r)
  {
  }

  lemma BestIsPriced(t: Task, accepted: seq<Path>, cs: set<Candidate>, latest: Path, best: Candidate, next: ShortestPath)
    requires Spurring(t, accepted, cs, latest, |latest|) && best in cs
    requires next == ShortestPath(best.vertices, best.distance, best.cost, true)
    ensures Priced(t, next) && best.deviation >= -1
  {
  }

  /** With no candidate left, every good path has been returned. */
  lemma NothingLeft(t: Task, result: seq<ShortestPath>)
    requires result != []
    requires var latest := result[|result| - 1].vertices; Spurring(t, Paths(result), {}, latest, |latest|)
    ensures forall p :: Good(t, p) ==> p in Paths(result)
  {
    hide Good, Spurring;
    forall p | Good(t, p)
      ensures p in Paths(result)
    {
      if p !in Paths(result) {
        var c := CandidateFor(t, Paths(result), {}, result[|result| - 1].vertices, p);
      }
    }
  }

  /** The search problem a set of endpoints poses. */
  ghost predicate Poses(t: Task, g: NavGraph, opts: SearchOptions, sources: seq<SeededEndpoint>, goals: seq<SeededEndpoint>) {
    && t.graph == g && t.opts == opts
    && IsSeedTable(t.seed, sources, g.vertices) && IsSeedTable(t.goalSeed, goals, g.vertices)
    && IsBearingTable(t.srcBearing, sources, g.vertices) && IsBearingTable(t.goalBearing, goals, g.vertices)
  }

  lemma PosesOne(t: Task, u: Task, g: NavGraph, opts: SearchOptions, sources: seq<SeededEndpoint>, goals: seq<SeededEndpoint>)
    requires Poses(t, g, opts, sources, goals) && Poses(u, g, opts, sources, goals)
    ensures t == u
  {
    assert t.seed == u.seed && t.goalSeed == u.goalSeed && t.srcBearing == u.srcBearing && t.goalBearing == u.goalBearing;
  }

  ghost function TaskFor(g: NavGraph, opts: SearchOptions, sources: seq<SeededEndpoint>, goals: seq<SeededEndpoint>): (t: Task)
    ensures Poses(t, g, opts, sources, goals)
  {
    TaskData(g, opts,
             seq(g.vertices, v => SeedAt(sources, v)), seq(g.vertices, v => SeedAt(goals, v)),
             seq(g.vertices, v => BearingAt(sources, v)), seq(g.vertices, v => BearingAt(goals, v)))
  }

  method BuildTask(g: NavGraph, opts: SearchOptions, sources: seq<SeededEndpoint>, goals: seq<SeededEndpoint>) returns (t: Task)
    requires SeedsNonNegative(sources) && SeedsNonNegative(goals)
    ensures t == TaskFor(g, opts, sources, goals) && RunTables(t, sources, goals)
  {
    var seed := BuildSeedTable(sources, g.vertices);
    var goalSeed := BuildSeedTable(goals, g.vertices);
    var srcBearing := BuildBearingTable(sources, g.vertices);
    var goalBearing := BuildBearingTable(goals, g.vertices);
    t := TaskData(g, opts, seed, goalSeed, srcBearing, goalBearing);
    PosesOne(t, TaskFor(g, opts, sources, goals), g, opts, sources, goals);
  }

  /** Every path after the first is the first that the prefixes of those before it offered. */
  ghost predicate EachFirstOffered(t: Task, sources: seq<SeededEndpoint>, goals: seq<SeededEndpoint>, result: seq<ShortestPath>) {
    forall i :: 0 < i < |result| ==> FirstOffered(t, sources, goals, Paths(result)[..i], result[i].vertices)
  }

  lemma OfferedOn(t: Task, sources: seq<SeededEndpoint>, goals: seq<SeededEndpoint>, result: seq<ShortestPath>, next: ShortestPath)
    requires EachFirstOffered(t, sources, goals, result) && FirstOffered(t, sources, goals, Paths(result), next.vertices)
    ensures EachFirstOffered(t, sources, goals, result + [next])
  {
    hide FirstOffered, Paths;
    PathsAppend(result, next);
    forall i | 0 < i < |result| + 1
      ensures FirstOffered(t, sources, goals, Paths(result + [next])[..i], (result + [next])[i].vertices)
    {
      assert Paths(result + [next])[..i] == Paths(result)[..i];
      assert Paths(result)[..|result|] == Paths(result);
    }
  }

  lemma NothingWaitsYet(t: Task, sources: seq<SeededEndpoint>, goals: seq<SeededEndpoint>, first: ShortestPath)
    ensures Waits(t, sources, goals, Paths([first]), Members([]), first.vertices, -1)
    ensures EachFirstOffered(t, sources, goals, [first])
  {
    assert Paths([first]) == [first.vertices] && Members([]) == {};
    NothingWaits(t, sources, goals, first.vertices);
  }

  /**
   * A whole run, whatever the turn penalty: the first path is the search's own answer, each later one the first of all
   * that a spur from any accepted prefix answers, and a run stops early only when no spur answers anything.
   */
  ghost predicate YenRun(t: Task, sources: seq<SeededEndpoint>, goals: seq<SeededEndpoint>, k: int, result: seq<ShortestPath>) {
    if k <= 0 || sources == [] || goals == [] || !SearchResult(t, sources, goals).found then result == []
    else
      && 0 < |result| <= k && result[0] == SearchResult(t, sources, goals)
      && EachFirstOffered(t, sources, goals, result)
      && (|result| < k ==> forall p :: !Offered(t, sources, goals, Paths(result), p))
  }

  /** Two runs return the same paths: the answer is a function of the endpoints, the options and k. */
  lemma YenRunIsOne(t: Task, sources: seq<SeededEndpoint>, goals: seq<SeededEndpoint>, k: int,
                    a: seq<ShortestPath>, b: seq<ShortestPath>)
    requires YenRun(t, sources, goals, k, a) && KShortest(t, k, a)
    requires YenRun(t, sources, goals, k, b) && KShortest(t, k, b)
    ensures a == b
  {
    hide KShortest, FirstOffered, Offered, SearchResult, Paths;
    if a != [] && b != [] {
      forall n | 0 < n <= |a| && n <= |b|
        ensures a[..n] == b[..n]
      {
        RunsAgree(t, sources, goals, k, a, b, n);
      }
      RunsEndAlike(t, sources, goals, k, a, b);
      RunsEndAlike(t, sources, goals, k, b, a);
      assert a[..|a|] == a && b[..|b|] == b;
    }
  }

  lemma {:induction false} RunsAgree(t: Task, sources: seq<SeededEndpoint>, goals: seq<SeededEndpoint>, k: int,
                                     a: seq<ShortestPath>, b: seq<ShortestPath>, n: nat)
    requires a != [] && b != [] && a[0] == b[0] && n <= |a| && n <= |b|
    requires EachFirstOffered(t, sources, goals, a) && KShortest(t, k, a)
    requires EachFirstOffered(t, sources, goals, b) && KShortest(t, k, b)
    ensures a[..n] == b[..n]
  {
    hide FirstOffered, Good, TotalOf;
    if n > 1 {
      RunsAgree(t, sources, goals, k, a, b, n - 1);
      PathsFront(a, n - 1);
      PathsFront(b, n - 1);
      FirstIsOne(t, sources, goals, Paths(a)[..n - 1], a[n - 1].vertices, b[n - 1].vertices);
      assert Priced(t, a[n - 1]) && Priced(t, b[n - 1]);
      assert a[..n] == a[..n - 1] + [a[n - 1]] && b[..n] == b[..n - 1] + [b[n - 1]];
    }
  }

  lemma PathsFront(result: seq<ShortestPath>, n: nat)
    requires n <= |result|
    ensures Paths(result)[..n] == Paths(result[..n])
  {
  }

  lemma RunsEndAlike(t: Task, sources: seq<SeededEndpoint>, goals: seq<SeededEndpoint>, k: int, a: seq<ShortestPath>, b: seq<ShortestPath>)
    requires YenRun(t, sources, goals, k, a) && YenRun(t, sources, goals, k, b) && a != []
    requires forall n :: 0 < n <= |a| && n <= |b| ==> a[..n] == b[..n]
    ensures |b| <= |a|
  {
    hide Offered, SearchResult, Paths;
    assert a[..|a|] == a;
    if |a| < |b| {
      PathsFront(b, |a|);
    }
  }

  /** Yen's loop over prebuilt tables: accept, spur, and take the cheapest candidate, until k or no more. */
  method RunRounds(t: Task, sources: seq<SeededEndpoint>, goals: seq<SeededEndpoint>, k: int)
    returns (result: seq<ShortestPath>)
    requires RunTables(t, sources, goals) && k > 0 && sources != [] && goals != []
    requires SearchBudget(t.graph.vertices, k - 1) < GENERATIONS
    ensures KShortest(t, k, result) && YenRun(t, sources, goals, k, result)
  {
    hide KShortest, Answers, Spurring, Waits, Accepted, Members, Sorted, OneBearing, GoalCount, SearchResult, Offered;
    hide YenRun, EachFirstOffered, FirstOffered, Settles;
    var n := t.graph.vertices;
    var spurSourceBearing := seq(n, _ => NO_BEARING);
    var bearingVertex := NO_VERTEX;
    var spurGoalSeed := t.goalSeed;
    var goalCount := CountGoals(t.goalSeed);
    var heuristic := new MultiGoalHeuristic(t.graph, goals);
    var ws := new SearchWorkspace();
    TablesCoverGoals(t, sources, goals);
    var first := FindShortestPathMulti(t, sources, heuristic, ws);
    if !first.found {
      NoFirstPath(t, sources, goals, k, first);
      return [];
    }
    result := [first];
    FirstIsAccepted(t, first);
    NothingWaitsYet(t, sources, goals, first);
    FreshBearings(spurSourceBearing, n);
    var candidates: seq<Candidate> := [];
    var lastDeviation := -1;
    var kth := 1;
    while kth < k
      invariant 1 <= kth <= k && |result| == kth && Accepted(t, result)
      invariant ws.Valid() && heuristic.Valid() && heuristic.graph == t.graph && heuristic.goals == goals
      invariant ws.generation <= SearchBudget(n, kth - 1)
      invariant spurGoalSeed == t.goalSeed && OneBearing(spurSourceBearing, n, bearingVertex)
      invariant Sorted(candidates) && lastDeviation >= -1
      invariant Spurring(t, Paths(result), Members(candidates), result[|result| - 1].vertices, lastDeviation)
      invariant Waits(t, sources, goals, Paths(result), Members(candidates), result[|result| - 1].vertices, lastDeviation)
      invariant result[0] == SearchResult(t, sources, goals) && result[0].found && EachFirstOffered(t, sources, goals, result)
    {
      BudgetGrows(n, kth, k - 1);
      candidates, spurGoalSeed, spurSourceBearing, bearingVertex :=
        SpurRound(t, sources, goalCount, result, lastDeviation, candidates, spurGoalSeed, spurSourceBearing, bearingVertex,
                  heuristic, ws);
      if candidates == [] {
        NoMembers();
        NothingLeft(t, result);
        AcceptedIsKShortest(t, k, result);
        NoneWaitsNoneOffered(t, sources, goals, Paths(result), result[|result| - 1].vertices);
        RunIs(t, sources, goals, k, result);
        return;
      }
      var best := candidates[0];
      var next := ShortestPath(best.vertices, best.distance, best.cost, true);
      AcceptNext(t, sources, goals, result, candidates, next);
      OfferedOn(t, sources, goals, result, next);
      lastDeviation := best.deviation;
      candidates := candidates[1..];
      result := result + [next];
      kth := kth + 1;
    }
    AcceptedIsKShortest(t, k, result);
    RunIs(t, sources, goals, k, result);
  }

  lemma RunIs(t: Task, sources: seq<SeededEndpoint>, goals: seq<SeededEndpoint>, k: int, result: seq<ShortestPath>)
    requires k > 0 && 0 < |result| <= k && result[0] == SearchResult(t, sources, goals) && result[0].found
    requires EachFirstOffered(t, sources, goals, result)
    requires |result| < k ==> forall p :: !Offered(t, sources, goals, Paths(result), p)
    ensures sources != [] && goals != [] ==> YenRun(t, sources, goals, k, result)
  {
  }

  /**
   * Up to k loopless paths from any source to any goal. With the turn penalty off they are the k
   * cheapest, in order; with it on they are still distinct, correctly priced, and all there are
   * when fewer than k come back.
   */
  method FindKShortestPathsMulti(g: NavGraph, sources: seq<SeededEndpoint>, goals: seq<SeededEndpoint>, k: int, opts: SearchOptions)
    returns (result: seq<ShortestPath>)
    requires SeedsNonNegative(sources) && SeedsNonNegative(goals)
    requires k > 0 ==> SearchBudget(g.vertices, k - 1) < GENERATIONS
    ensures KShortest(TaskFor(g, opts, sources, goals), k, result)
    ensures YenRun(TaskFor(g, opts, sources, goals), sources, goals, k, result)
  {
    hide KShortest, EachFirstOffered, Offered, SearchResult, Poses, RunTables, TaskFor;
    if k <= 0 || sources == [] || goals == [] {
      NothingToDo(TaskFor(g, opts, sources, goals), g, opts, sources, goals, k);
      return [];
    }
    var task := BuildTask(g, opts, sources, goals);
    PosesFacts(task, g, opts, sources, goals);
    result := RunRounds(task, sources, goals, k);
  }

  /** One search over a throwaway workspace. */
  method FindShortestPathOnce(g: NavGraph, sources: seq<SeededEndpoint>, goals: seq<SeededEndpoint>, opts: SearchOptions)
    returns (r: ShortestPath)
    requires SeedsNonNegative(sources) && SeedsNonNegative(goals)
    ensures Answers(TaskFor(g, opts, sources, goals), r)
    ensures r == SearchResult(TaskFor(g, opts, sources, goals), sources, goals)
  {
    hide SearchResult, Settles, Answers, Poses, RunTables, TaskFor;
    var task := BuildTask(g, opts, sources, goals);
    PosesFacts(task, g, opts, sources, goals);
    TablesCoverGoals(task, sources, goals);
    var heuristic := new MultiGoalHeuristic(g, goals);
    var ws := new SearchWorkspace();
    r := FindShortestPathMulti(task, sources, heuristic, ws);
  }

  lemma NoMembers()
    ensures Members([]) == {}
  {
  }

  lemma PosesFacts(t: Task, g: NavGraph, opts: SearchOptions, sources: seq<SeededEndpoint>, goals: seq<SeededEndpoint>)
    requires Poses(t, g, opts, sources, goals) && SeedsNonNegative(sources) && SeedsNonNegative(goals)
    ensures t.graph == g && |t.goalSeed| == g.vertices && RunTables(t, sources, goals)
    ensures IsSeedTable(t.seed, sources, g.vertices)
  {
  }

  lemma NothingToDo(t: Task, g: NavGraph, opts: SearchOptions, sources: seq<SeededEndpoint>, goals: seq<SeededEndpoint>, k: int)
    requires Poses(t, g, opts, sources, goals) && (k <= 0 || sources == [] || goals == [])
    ensures KShortest(t, k, [])
  {
    if k > 0 {
      forall p
        ensures !Good(t, p)
      {
        if p != [] {
          UnseededIsRejected(t, p);
        } else {
          EmptyIsNoWalk(t);
        }
      }
    }
  }

  lemma NoFirstPath(t: Task, sources: seq<SeededEndpoint>, goals: seq<SeededEndpoint>, k: int, first: ShortestPath)
    requires Answers(t, first) && !first.found && first == SearchResult(t, sources, goals)
    ensures KShortest(t, k, []) && YenRun(t, sources, goals, k, [])
  {
  }

  lemma FirstIsAccepted(t: Task, first: ShortestPath)
    requires Answers(t, first) && first.found
    ensures Accepted(t, [first]) && Sorted([]) && Spurring(t, Paths([first]), Members([]), first.vertices, -1)
  {
    hide Spurring, Accepts, TotalOf, Simple;
    assert Paths([first]) == [first.vertices];
    assert Members([]) == {};
    FirstRound(t, first.vertices);
  }

  lemma FreshBearings(table: seq<real>, n: nat)
    requires |table| == n && forall v :: 0 <= v < n ==> table[v] == NO_BEARING
    ensures OneBearing(table, n, NO_VERTEX)
  {
  }
}

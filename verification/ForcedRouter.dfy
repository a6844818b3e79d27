/** Via-point routing: the hop alternatives, their best-first merge, and the greedy fallback. */
module ForcedRouter {
  import opened Numbers
  import opened NavGraphs
  import opened SearchModel
  import opened PathCosts
  import opened Workspaces
  import opened AStarInvariants
  import opened AStar
  import opened YenPartition
  import opened YenCandidates
  import opened YenAnswers
  import opened YenSpurs
  import opened Yen
  import opened ForcedPicks
  import opened ForcedStitch
  import opened ForcedMerge

  // ---- Building the segments ------------------------------------------------------------------

  /** The paths of one cost, in order. */
  ghost function OfCost(rs: seq<ShortestPath>, c: real): seq<ShortestPath> {
    if rs == [] then []
    else
      var last := rs[|rs| - 1];
      OfCost(rs[..|rs| - 1], c) + if last.cost == c then [last] else []
  }

  lemma {:induction false} OfCostSplits(a: seq<ShortestPath>, b: seq<ShortestPath>, c: real)
    ensures OfCost(a + b, c) == OfCost(a, c) + OfCost(b, c)
    decreases |b|
  {
    if b == [] {
      assert a + b == a;
    } else {
      assert (a + b)[..|a + b| - 1] == a + b[..|b| - 1];
      OfCostSplits(a, b[..|b| - 1], c);
    }
  }

  lemma {:induction false} NoneOfCost(rs: seq<ShortestPath>, c: real)
    requires forall j :: 0 <= j < |rs| ==> rs[j].cost != c
    ensures OfCost(rs, c) == []
  {
    if rs != [] {
      NoneOfCost(rs[..|rs| - 1], c);
    }
  }

  /** A path put behind all of its own cost keeps every cost's order. */
  lemma InsertIsStable(rs: seq<ShortestPath>, r: ShortestPath, k: nat, c: real)
    requires k <= |rs| && forall j :: k <= j < |rs| ==> r.cost < rs[j].cost
    ensures OfCost(rs[..k] + [r] + rs[k..], c) == OfCost(rs + [r], c)
  {
    assert rs == rs[..k] + rs[k..];
    OfCostSplits(rs[..k] + [r], rs[k..], c);
    OfCostSplits(rs[..k], [r], c);
    OfCostSplits(rs[..k], rs[k..], c);
    OfCostSplits(rs, [r], c);
    if c == r.cost {
      NoneOfCost(rs[k..], c);
    } else {
      NoneOfCost([r], c);
    }
  }

  /** out is the stable sort of rs by cost. */
  ghost predicate StablySorted(rs: seq<ShortestPath>, out: seq<ShortestPath>) {
    && CostSorted(out) && |out| == |rs| && (forall r :: r in out <==> r in rs)
    && forall c :: OfCost(out, c) == OfCost(rs, c)
  }

  /** Stable sort by cost: each path goes after every earlier one that is no dearer. */
  method SortByCost(cands: seq<ShortestPath>) returns (out: seq<ShortestPath>)
    requires DistinctRoutes(cands)
    ensures StablySorted(cands, out) && DistinctRoutes(out)
  {
    hide OfCost;
    out := [];
    for i := 0 to |cands|
      invariant CostSorted(out) && |out| == i && DistinctRoutes(out)
      invariant forall r :: r in out <==> r in cands[..i]
      invariant forall c :: OfCost(out, c) == OfCost(cands[..i], c)
    {
      assert cands[..i + 1] == cands[..i] + [cands[i]];
      forall q | q in out
        ensures q.vertices != cands[i].vertices
      {
        var j :| 0 <= j < i && cands[..i][j] == q;
        assert cands[j] == q;
      }
      forall c
        ensures OfCost(out + [cands[i]], c) == OfCost(cands[..i + 1], c)
      {
        OfCostSplits(out, [cands[i]], c);
        OfCostSplits(cands[..i], [cands[i]], c);
      }
      out := InsertByCost(out, cands[i]);
    }
    assert cands[..|cands|] == cands;
  }

  method InsertByCost(rs: seq<ShortestPath>, r: ShortestPath) returns (out: seq<ShortestPath>)
    requires CostSorted(rs) && DistinctRoutes(rs) && forall q :: q in rs ==> q.vertices != r.vertices
    ensures CostSorted(out) && |out| == |rs| + 1 && DistinctRoutes(out)
    ensures forall q :: q in out <==> q in rs || q == r
    ensures forall c :: OfCost(out, c) == OfCost(rs + [r], c)
  {
    hide DistinctRoutes, OfCost;
    var k := |rs|;
    while k > 0 && r.cost < rs[k - 1].cost
      invariant 0 <= k <= |rs|
      invariant forall j :: k <= j < |rs| ==> r.cost < rs[j].cost
    {
      k := k - 1;
    }
    InsertDistinct(rs, r, k);
    InsertSorted(rs, r, k);
    out := rs[..k] + [r] + rs[k..];
    InsertMembers(rs, r, k);
    forall c
      ensures OfCost(out, c) == OfCost(rs + [r], c)
    {
      InsertIsStable(rs, r, k, c);
    }
  }

  lemma InsertSorted(rs: seq<ShortestPath>, r: ShortestPath, k: nat)
    requires CostSorted(rs) && k <= |rs|
    requires k > 0 ==> rs[k - 1].cost <= r.cost
    requires k < |rs| ==> r.cost <= rs[k].cost
    ensures CostSorted(rs[..k] + [r] + rs[k..])
  {
    var out := rs[..k] + [r] + rs[k..];
    forall i, j | 0 <= i < j < |out|
      ensures out[i].cost <= out[j].cost
    {
      assert i < k ==> rs[i].cost <= rs[k - 1].cost;
      assert j > k ==> rs[k].cost <= rs[j - 1].cost;
    }
  }

  lemma InsertMembers(rs: seq<ShortestPath>, r: ShortestPath, k: nat)
    requires k <= |rs|
    ensures forall q :: q in rs[..k] + [r] + rs[k..] <==> q in rs || q == r
  {
    assert rs == rs[..k] + rs[k..];
  }

  lemma SortedIsKShortest(t: Task, k: int, cands: seq<ShortestPath>, out: seq<ShortestPath>)
    requires KShortest(t, k, cands) && StablySorted(cands, out) && DistinctRoutes(out)
    ensures KShortest(t, k, out)
  {
    hide Priced, Good, OfCost;
    forall p
      ensures Returned(cands, p) <==> Returned(out, p)
    {
      if Returned(cands, p) {
        var i :| 0 <= i < |cands| && cands[i].vertices == p;
        assert cands[i] in out;
      }
      if Returned(out, p) {
        var i :| 0 <= i < |out| && out[i].vertices == p;
        assert out[i] in cands;
      }
    }
    forall i | 0 <= i < |out|
      ensures Priced(t, out[i])
    {
      assert out[i] in cands;
    }
    if Exact(t) {
      forall p, i | 0 <= i < |out| && Good(t, p) && !Returned(out, p)
        ensures out[i].cost <= CostOf(t, p)
      {
        assert out[i] in cands;
      }
    }
  }

  lemma KShortestIsDistinct(t: Task, k: int, cands: seq<ShortestPath>)
    requires KShortest(t, k, cands)
    ensures DistinctRoutes(cands)
    ensures k > 0 && cands == [] ==> forall p :: !Good(t, p)
  {
    hide Good, Priced;
    if k > 0 && cands == [] {
      forall p ensures !Good(t, p) {
        assert !Returned(cands, p);
      }
    }
  }

  // ---- The greedy fallback --------------------------------------------------------------------

  /** What one greedy hop adds: a simple walk that has visited the fixes up to h. */
  ghost predicate GreedyOk(via: Via, h: nat, path: Path) {
    && Simple(path)
    && (h == 0 ==> path == [])
    && (0 < h <= |via.forced| ==>
          path != [] && path[|path| - 1] == via.forced[h - 1] && WalkOf(WholeTask(via), path).Some?
          && Visits(path, via.forced[..h]))
    && (h == |via.forced| + 1 ==> Good(WholeTask(via), path) && Visits(path, via.forced))
  }

  /** The sources of a greedy hop carry the heading the previous hop arrived on. */
  function GreedySources(via: Via, h: nat, arrival: real): seq<SeededEndpoint> {
    if h == 0 || h > |via.forced| then via.sources else [SeededEndpoint(via.forced[h - 1], 0.0, arrival)]
  }

  ghost function GreedyTask(via: Via, h: nat, arrival: real, opts: SearchOptions): Task {
    TaskFor(via.graph, opts, GreedySources(via, h, arrival), HopGoals(via, h))
  }

  lemma GreedyTables(via: Via, h: nat, arrival: real, opts: SearchOptions, v: int)
    requires h <= |via.forced|
    ensures var tg, t := GreedyTask(via, h, arrival, opts), WholeTask(via);
            && tg.graph == t.graph && t.opts == via.opts && tg.opts == opts
            && (h == 0 ==> tg.SeedOf(v) == t.SeedOf(v) && tg.SourceBearingOf(v) == t.SourceBearingOf(v))
            && (h > 0 && tg.SeedOf(v) >= 0.0 ==> v == via.forced[h - 1] && tg.SeedOf(v) == 0.0 && tg.SourceBearingOf(v) == arrival)
            && (h == |via.forced| ==> tg.GoalSeedOf(v) == t.GoalSeedOf(v) && tg.GoalBearingOf(v) == t.GoalBearingOf(v))
            && (h < |via.forced| && tg.GoalSeedOf(v) >= 0.0 ==> v == via.forced[h] && tg.GoalSeedOf(v) == 0.0)
            && (h < |via.forced| ==> tg.GoalBearingOf(v) == NO_BEARING)
  {
    hide SeedAt, BearingAt;
    if h > 0 {
      LoneSeedAny(via.forced[h - 1], arrival, v);
    }
    if h < |via.forced| {
      LoneEndpoint(via.forced[h], v);
    }
  }

  lemma LoneSeedAny(u: int, bearing: real, v: int)
    ensures SeedAt([SeededEndpoint(u, 0.0, bearing)], v) == if v == u then 0.0 else -1.0
    ensures BearingAt([SeededEndpoint(u, 0.0, bearing)], v) == if v == u then bearing else NO_BEARING
  {
    var es := [SeededEndpoint(u, 0.0, bearing)];
    assert es[..0] == [];
  }

  /** The options of a greedy hop: the request's, with more vertices banned. */
  ghost predicate BansMore(via: Via, opts: SearchOptions, banned: seq<int>, path: Path) {
    && opts == via.opts.(nodeFilter := via.opts.nodeFilter.(banned := banned))
    && (forall v :: v in via.opts.nodeFilter.banned ==> v in banned)
    && (path != [] ==> forall v :: v in path[..|path| - 1] ==> v in banned)
  }

  lemma {:induction false} GreedyFirstWalk(via: Via, arrival: real, opts: SearchOptions, banned: seq<int>, p: Path)
    requires BansMore(via, opts, banned, []) && WalkOf(GreedyTask(via, 0, arrival, opts), p).Some?
    ensures WalkOf(WholeTask(via), p) == WalkOf(GreedyTask(via, 0, arrival, opts), p)
    decreases |p|
  {
    hide WholeTask, GreedyTask, StepTo;
    if p != [] {
      GreedyTables(via, 0, arrival, opts, p[0]);
      if |p| > 1 {
        WalkUnfold(GreedyTask(via, 0, arrival, opts), p);
        WalkUnfold(WholeTask(via), p);
        StepNeedsWalk(GreedyTask(via, 0, arrival, opts), WalkOf(GreedyTask(via, 0, arrival, opts), p[..|p| - 1]), p[|p| - 2], p[|p| - 1]);
        GreedyFirstWalk(via, arrival, opts, banned, p[..|p| - 1]);
        GreedyTightens(via, 0, arrival, opts, banned, []);
        StepExtends(WholeTask(via), GreedyTask(via, 0, arrival, opts), WalkOf(WholeTask(via), p[..|p| - 1]).value,
                    WalkOf(GreedyTask(via, 0, arrival, opts), p[..|p| - 1]).value, p[|p| - 2], p[|p| - 1]);
      } else {
        GreedyStartsAlike(via, arrival, opts, banned, p[0]);
      }
    }
  }

  lemma GreedyStartsAlike(via: Via, arrival: real, opts: SearchOptions, banned: seq<int>, v: int)
    requires BansMore(via, opts, banned, []) && StartAt(GreedyTask(via, 0, arrival, opts), v).Some?
    ensures StartAt(WholeTask(via), v) == StartAt(GreedyTask(via, 0, arrival, opts), v)
  {
    hide WholeTask, GreedyTask;
    GreedyTables(via, 0, arrival, opts, v);
    GreedyTightens(via, 0, arrival, opts, banned, []);
  }

  lemma StepNeedsWalk(t: Task, w: Option<Walk>, u: int, v: int)
    requires StepTo(t, w, u, v).Some?
    ensures w.Some?
  {
  }

  lemma GreedyTightens(via: Via, h: nat, arrival: real, opts: SearchOptions, banned: seq<int>, path: Path)
    requires BansMore(via, opts, banned, path) && h <= |via.forced|
    ensures Tightens(WholeTask(via), GreedyTask(via, h, arrival, opts))
  {
    GreedyTables(via, h, arrival, opts, 0);
  }

  /** A found greedy hop keeps the path simple and takes it to the next fix, or to a goal. */
  lemma GreedyStep(via: Via, h: nat, path: Path, arrival: real, opts: SearchOptions, banned: seq<int>, hop: ShortestPath)
    requires GreedyOk(via, h, path) && h <= |via.forced| && via.forced != [] && BansMore(via, opts, banned, path)
    requires Answers(GreedyTask(via, h, arrival, opts), hop) && hop.found
    ensures hop.vertices != []
    ensures GreedyOk(via, h + 1, if path == [] then hop.vertices else path + hop.vertices[1..])
  {
    hide *;
    var tg, p := GreedyTask(via, h, arrival, opts), hop.vertices;
    AnswerFacts(tg, hop);
    GreedyHopEnds(via, h, arrival, opts, p);
    GreedyPathFacts(via, h, path);
    var whole := if path == [] then p else path + p[1..];
    if h == 0 {
      NoPathBans(via, opts, banned, path);
      GreedyFirstWalk(via, arrival, opts, banned, p);
      NothingToVisit(p);
      assert via.forced[..0] == [];
    } else {
      GreedyTightens(via, h, arrival, opts, banned, path);
      EndsAlike(path, p);
      WalkExtends(WholeTask(via), tg, path, p);
      GreedyBans(via, h, arrival, opts, banned, path);
      JoinedIsSimple(tg, path, p, banned);
      VisitsLonger(path, p[1..], via.forced[..h]);
    }
    GreedyArrives(via, h, arrival, opts, p, whole);
  }

  lemma NoPathBans(via: Via, opts: SearchOptions, banned: seq<int>, path: Path)
    requires BansMore(via, opts, banned, path)
    ensures BansMore(via, opts, banned, [])
  {
  }

  lemma GreedyBans(via: Via, h: nat, arrival: real, opts: SearchOptions, banned: seq<int>, path: Path)
    requires BansMore(via, opts, banned, path) && path != [] && h <= |via.forced|
    ensures GreedyTask(via, h, arrival, opts).opts.nodeFilter.banned == banned
    ensures forall v :: v in path[..|path| - 1] ==> v in banned
  {
    GreedyTables(via, h, arrival, opts, 0);
  }

  lemma AnswerFacts(t: Task, r: ShortestPath)
    requires Answers(t, r) && r.found
    ensures var p := r.vertices;
            p != [] && Simple(p) && WalkOf(t, p).Some? && NodesPass(t, p) && t.GoalSeedOf(p[|p| - 1]) >= 0.0
  {
    WalkInRange(t, r.vertices);
  }

  lemma GreedyHopEnds(via: Via, h: nat, arrival: real, opts: SearchOptions, p: Path)
    requires h <= |via.forced| && p != []
    requires var tg := GreedyTask(via, h, arrival, opts); WalkOf(tg, p).Some? && tg.GoalSeedOf(p[|p| - 1]) >= 0.0
    ensures h > 0 ==> p[0] == via.forced[h - 1]
    ensures h < |via.forced| ==> p[|p| - 1] == via.forced[h]
    ensures h == |via.forced| ==> WholeTask(via).GoalSeedOf(p[|p| - 1]) >= 0.0
  {
    hide GreedyTask, WholeTask, WalkOf;
    var tg := GreedyTask(via, h, arrival, opts);
    WalkStart(tg, p);
    GreedyTables(via, h, arrival, opts, p[0]);
    GreedyTables(via, h, arrival, opts, p[|p| - 1]);
  }

  lemma GreedyPathFacts(via: Via, h: nat, path: Path)
    requires GreedyOk(via, h, path) && h <= |via.forced|
    ensures Simple(path) && (h == 0 <==> path == [])
    ensures h > 0 ==> path[|path| - 1] == via.forced[h - 1] && WalkOf(WholeTask(via), path).Some? && Visits(path, via.forced[..h])
  {
    hide Visits, WalkOf, WholeTask;
  }

  lemma GreedyArrives(via: Via, h: nat, arrival: real, opts: SearchOptions, p: Path, whole: Path)
    requires h <= |via.forced| && via.forced != [] && p != [] && whole != []
    requires whole[|whole| - 1] == p[|p| - 1] && Simple(whole) && WalkOf(WholeTask(via), whole).Some?
    requires Visits(whole, via.forced[..h])
    requires h < |via.forced| ==> p[|p| - 1] == via.forced[h]
    requires h == |via.forced| ==> WholeTask(via).GoalSeedOf(p[|p| - 1]) >= 0.0
    ensures GreedyOk(via, h + 1, whole)
  {
    hide WalkOf, WholeTask, Visits, Simple;
    if h < |via.forced| {
      VisitsNext(whole, via.forced[..h], via.forced[h]);
      assert via.forced[..h] + [via.forced[h]] == via.forced[..h + 1];
    } else {
      assert via.forced[..h] == via.forced;
      FinishesToo(WholeTask(via), whole);
    }
  }

  lemma WalkStart(t: Task, p: Path)
    requires WalkOf(t, p).Some? && p != []
    ensures t.SeedOf(p[0]) >= 0.0
  {
    WalkPrefix(t, p, 1);
    assert p[..1] == [p[0]];
  }

  lemma JoinedIsSimple(t: Task, path: Path, p: Path, banned: seq<int>)
    requires Simple(path) && Simple(p) && path != [] && p != [] && p[0] == path[|path| - 1] && NodesPass(t, p)
    requires t.opts.nodeFilter.banned == banned && forall v :: v in path[..|path| - 1] ==> v in banned
    ensures Simple(path + p[1..])
  {
    var whole := path + p[1..];
    forall i, j | 0 <= i < j < |whole|
      ensures whole[i] != whole[j]
    {
      if i < |path| <= j {
        var q := p[j - |path| + 1];
        assert whole[j] == q && !t.opts.nodeFilter.Blocks(q);
        if i < |path| - 1 {
          assert path[i] in path[..|path| - 1];
        }
      }
    }
  }

  lemma FinishesToo(t: Task, whole: Path)
    requires whole != [] && WalkOf(t, whole).Some? && Simple(whole) && t.GoalSeedOf(whole[|whole| - 1]) >= 0.0
    ensures Good(t, whole)
  {
    hide WalkOf;
  }

  /** The greedy path already uses v, and does not end there. */
  ghost predicate LeftBehind(path: Path, v: int) {
    exists i :: 0 <= i < |path| - 1 && path[i] == v
  }

  /** v is a forced fix beyond the end of hop h. */
  ghost predicate StillAhead(via: Via, h: nat, v: int) {
    exists j :: h < j < |via.forced| && via.forced[j] == v
  }

  /** A greedy hop's options bar the request's bans, every vertex passed, and every fix beyond the hop's own end. */
  ghost predicate BansExactly(via: Via, opts: SearchOptions, path: Path, h: nat) {
    && opts == via.opts.(nodeFilter := via.opts.nodeFilter.(banned := opts.nodeFilter.banned))
    && forall v :: v in opts.nodeFilter.banned <==>
         v in via.opts.nodeFilter.banned || LeftBehind(path, v) || StillAhead(via, h, v)
  }

  function Passed(path: Path): Path {
    if path == [] then [] else path[..|path| - 1]
  }

  function Ahead(via: Via, h: nat): seq<int> {
    if h + 1 <= |via.forced| then via.forced[h + 1..] else []
  }

  lemma BansExactlyBansMore(via: Via, opts: SearchOptions, path: Path, h: nat)
    requires BansExactly(via, opts, path, h)
    ensures BansMore(via, opts, opts.nodeFilter.banned, path)
  {
    if path != [] {
      forall v | v in path[..|path| - 1]
        ensures v in opts.nodeFilter.banned
      {
        PassedIsBehind(path, v);
      }
    }
  }

  // ---- The greedy pass as a function ----------------------------------------------------------

  /** The heading the path arrives on, once it has an edge to arrive by. */
  function ArrivalOn(g: NavGraph, path: Path): real {
    if |path| >= 2 then g.Bearing(path[|path| - 2], path[|path| - 1]) else NO_BEARING
  }

  ghost function GreedyOptions(via: Via, h: nat, path: Path): SearchOptions {
    var banned := InOrder(via.opts.nodeFilter.banned + (Passed(path) + Ahead(via, h)), VertexBefore);
    via.opts.(nodeFilter := via.opts.nodeFilter.(banned := banned))
  }

  /** The task of hop h behind the path so far. */
  ghost function GreedyHopTask(via: Via, h: nat, path: Path): Task {
    GreedyTask(via, h, ArrivalOn(via.graph, path), GreedyOptions(via, h, path))
  }

  ghost function GreedyHop(via: Via, h: nat, path: Path): ShortestPath {
    SearchResult(GreedyHopTask(via, h, path), GreedySources(via, h, ArrivalOn(via.graph, path)), HopGoals(via, h))
  }

  function Extended(path: Path, part: Path): Path {
    if path == [] || part == [] then part else path + part[1..]
  }

  /** The path after so many hops, if every one of them was found. */
  ghost function GreedyPath(via: Via, hops: nat): Option<Path> {
    if hops == 0 then Some([])
    else
      var before := GreedyPath(via, hops - 1);
      if before.None? || !GreedyHop(via, hops - 1, before.value).found then None
      else Some(Extended(before.value, GreedyHop(via, hops - 1, before.value).vertices))
  }

  /**
   * What hop h reports is what the whole path pays for it, the turn at the fix included. Only a path of one vertex has no
   * edge to take the heading from.
   */
  ghost predicate HopIsPriced(via: Via, h: nat, path: Path, hop: ShortestPath) {
    var t, whole := WholeTask(via), Extended(path, hop.vertices);
    && WalkOf(t, whole).Some? && (path != [] ==> WalkOf(t, path).Some?)
    && (|path| != 1 ==>
          var before := if path == [] then 0.0 else WalkOf(t, path).value.cost;
          before + hop.cost == if h < |via.forced| then WalkOf(t, whole).value.cost else CostOf(t, whole))
  }

  ghost predicate HopsArePriced(via: Via, hops: nat) {
    forall h: nat :: h < hops ==> FoundHopIsPriced(via, h)
  }

  ghost predicate FoundHopIsPriced(via: Via, h: nat) {
    GreedyPath(via, h + 1).Some? ==>
      HopIsPriced(via, h, GreedyPath(via, h).value, GreedyHop(via, h, GreedyPath(via, h).value))
  }

  /** The greedy pass got stuck: some hop has no answer once the earlier vertices and the fixes ahead are barred. */
  ghost predicate GreedyStuck(via: Via) {
    exists h: nat, path: Path :: GreedyStuckAt(via, h, path)
  }

  ghost predicate GreedyStuckAt(via: Via, h: nat, path: Path) {
    && h <= |via.forced| && GreedyPath(via, h) == Some(path) && GreedyOk(via, h, path)
    && BansExactly(via, GreedyOptions(via, h, path), path, h)
    && forall p :: !Accepts(GreedyHopTask(via, h, path), p)
  }

  /** The one greedy route, every hop priced as flown, or none where the pass got stuck. */
  ghost predicate GreedyRoute(via: Via, results: seq<ShortestPath>) {
    var whole := GreedyPath(via, |via.forced| + 1);
    && HopsArePriced(via, |via.forced| + 1)
    && if whole.Some? then |results| == 1 && results[0].vertices == whole.value else results == [] && GreedyStuck(via)
  }

  /** A greedy hop's search pays exactly what the walk it extends would. */
  lemma HopWalkCost(via: Via, h: nat, path: Path, opts: SearchOptions, banned: seq<int>, p: Path)
    requires GreedyOk(via, h, path) && h <= |via.forced| && BansMore(via, opts, banned, path) && |path| != 1
    requires p != [] && WalkOf(GreedyTask(via, h, ArrivalOn(via.graph, path), opts), p).Some?
    requires h > 0 ==> p[0] == via.forced[h - 1]
    ensures var t, tg, whole := WholeTask(via), GreedyTask(via, h, ArrivalOn(via.graph, path), opts), Extended(path, p);
            && WalkOf(t, whole).Some? && (path != [] ==> WalkOf(t, path).Some?)
            && (t.opts.turn.enabled ==> WalkOf(t, whole).value.inbound == WalkOf(tg, p).value.inbound)
            && WalkOf(t, whole).value.cost ==
               (if path == [] then 0.0 else WalkOf(t, path).value.cost) + WalkOf(tg, p).value.cost
  {
    hide WholeTask, GreedyTask, StepTo, WalkOf, BansMore, GreedyOk, Tightens;
    var arrival := ArrivalOn(via.graph, path);
    var t, tg := WholeTask(via), GreedyTask(via, h, arrival, opts);
    GreedyPathFacts(via, h, path);
    if h == 0 {
      NoPathBans(via, opts, banned, path);
      GreedyFirstWalk(via, arrival, opts, banned, p);
    } else {
      GreedyTightens(via, h, arrival, opts, banned, path);
      WalkExtends(t, tg, path, p);
      HopStart(via, h, path, opts, p);
      ArrivalIsInbound(via, path);
      assert |p| == 1 ==> p[..1] == p && path + p[1..] == path;
    }
  }

  lemma HopStart(via: Via, h: nat, path: Path, opts: SearchOptions, p: Path)
    requires 0 < h <= |via.forced| && p != []
    requires var tg := GreedyTask(via, h, ArrivalOn(via.graph, path), opts); WalkOf(tg, p[..1]).Some?
    ensures var tg := GreedyTask(via, h, ArrivalOn(via.graph, path), opts);
            WalkOf(tg, p[..1]).value.cost == 0.0 && WalkOf(tg, p[..1]).value.inbound == ArrivalOn(via.graph, path)
  {
    hide GreedyTask;
    GreedyTables(via, h, ArrivalOn(via.graph, path), opts, p[0]);
  }

  lemma ArrivalIsInbound(via: Via, path: Path)
    requires |path| >= 2 && WalkOf(WholeTask(via), path).Some?
    ensures WholeTask(via).opts.turn.enabled ==> WalkOf(WholeTask(via), path).value.inbound == ArrivalOn(via.graph, path)
  {
    hide Hop;
    WalkUnfold(WholeTask(via), path);
  }

  lemma HopCostIsPaid(via: Via, h: nat, path: Path, opts: SearchOptions, banned: seq<int>, hop: ShortestPath)
    requires GreedyOk(via, h, path) && h <= |via.forced| && via.forced != [] && BansMore(via, opts, banned, path)
    requires Answers(GreedyTask(via, h, ArrivalOn(via.graph, path), opts), hop) && hop.found
    ensures HopIsPriced(via, h, path, hop)
  {
    hide WholeTask, GreedyTask, WalkOf, GreedyOk, BansMore, Answers, Finish;
    var arrival, p := ArrivalOn(via.graph, path), hop.vertices;
    var t, tg, whole := WholeTask(via), GreedyTask(via, h, arrival, opts), Extended(path, p);
    AnswerFacts(tg, hop);
    GreedyHopEnds(via, h, arrival, opts, p);
    GreedyPathFacts(via, h, path);
    if |path| == 1 {
      GreedyTightens(via, h, arrival, opts, banned, path);
      WalkExtends(t, tg, path, p);
    } else {
      HopWalkCost(via, h, path, opts, banned, p);
      GreedyTables(via, h, arrival, opts, p[|p| - 1]);
      assert whole[|whole| - 1] == p[|p| - 1];
      AnswerCost(tg, hop);
      GreedyTightens(via, h, arrival, opts, banned, path);
      HopFinish(t, tg, WalkOf(t, whole).value, WalkOf(tg, p).value, p[|p| - 1], h < |via.forced|);
    }
  }

  lemma AnswerCost(t: Task, r: ShortestPath)
    requires Answers(t, r) && r.found
    ensures r.vertices != [] && WalkOf(t, r.vertices).Some?
    ensures Finish(t, WalkOf(t, r.vertices).value, r.vertices[|r.vertices| - 1]) == Some(Leg(r.cost, r.distance))
  {
    hide WalkOf, Finish;
    AnswerFacts(t, r);
  }

  /** Ending at a forced fix costs nothing; ending at a goal costs the hop's search what it costs the whole. */
  lemma HopFinish(t: Task, tg: Task, w: Walk, wg: Walk, v: int, atFix: bool)
    requires tg.opts.turn == t.opts.turn && Finish(tg, wg, v).Some?
    requires atFix ==> tg.GoalSeedOf(v) == 0.0 && tg.GoalBearingOf(v) == NO_BEARING
    requires !atFix ==> tg.GoalSeedOf(v) == t.GoalSeedOf(v) && tg.GoalBearingOf(v) == t.GoalBearingOf(v)
    requires t.opts.turn.enabled ==> w.inbound == wg.inbound
    ensures atFix ==> Finish(tg, wg, v).value.cost == wg.cost
    ensures !atFix ==> Finish(t, w, v).Some? && Finish(t, w, v).value.cost - w.cost == Finish(tg, wg, v).value.cost - wg.cost
  {
    hide TurnPenalty.Of, TurnAngle;
  }

  /** One route built hop by hop, each hop barred from the vertices already used and the fixes still ahead. */
  method Greedy(via: Via, t: Task) returns (results: seq<ShortestPath>)
    requires t == WholeTask(via) && via.forced != []
    requires SeedsNonNegative(via.sources) && SeedsNonNegative(via.goals)
    ensures |results| <= 1 && forall r :: r in results ==> Priced(t, r) && Visits(r.vertices, via.forced)
    ensures GreedyRoute(via, results)
  {
    hide GreedyOk, GreedyTask, WholeTask, Answers, Priced, Visits, BansMore, Good, RecostOf, BansExactly, TaskFor;
    hide SearchResult, GreedyPath, GreedyStuck, HopsArePriced, HopIsPriced, InOrder;
    var path: Path := [];
    GreedyStarts(via);
    for h := 0 to |via.forced| + 1
      invariant GreedyOk(via, h, path) && GreedyPath(via, h) == Some(path) && HopsArePriced(via, h)
    {
      var banned := MergeBanned(via.opts.nodeFilter.banned, Passed(path) + Ahead(via, h), VertexBefore);
      var opts := via.opts.(nodeFilter := via.opts.nodeFilter.(banned := banned));
      GreedyBansExactly(via, opts, banned, path, h);
      var arrival := ArrivalOn(via.graph, path);
      GreedySeeds(via, h, arrival);
      var hop := FindShortestPathOnce(via.graph, GreedySources(via, h, arrival), HopGoals(via, h), opts);
      GreedyTaskIs(via, h, arrival, opts);
      assert hop == GreedyHop(via, h, path);
      if !hop.found || hop.vertices == [] {
        GreedyMisses(via, h, path, hop);
        GreedyFails(via, h);
        return [];
      }
      BansExactlyBansMore(via, opts, path, h);
      GreedyStep(via, h, path, arrival, opts, banned, hop);
      HopCostIsPaid(via, h, path, opts, banned, hop);
      GreedyGoesOn(via, h, path, hop);
      path := if path == [] then hop.vertices else path + hop.vertices[1..];
    }
    GreedyDone(via, path);
    var greedy := StitchAndCost(t, [path]);
    GreedyIsFound(t, path, greedy);
    results := if greedy.found then [greedy] else [];
  }

  lemma GreedyStarts(via: Via)
    ensures GreedyOk(via, 0, []) && GreedyPath(via, 0) == Some([]) && HopsArePriced(via, 0)
  {
  }

  lemma GreedyGoesOn(via: Via, h: nat, path: Path, hop: ShortestPath)
    requires GreedyPath(via, h) == Some(path) && hop == GreedyHop(via, h, path) && hop.found
    requires HopsArePriced(via, h) && HopIsPriced(via, h, path, hop)
    ensures GreedyPath(via, h + 1) == Some(Extended(path, hop.vertices)) && HopsArePriced(via, h + 1)
  {
    hide HopIsPriced, GreedyHop;
  }

  /** Once a hop is not found, no later one is. */
  lemma {:induction false} NoneAfter(via: Via, h: nat, n: nat)
    requires GreedyPath(via, h).None? && h <= n
    ensures GreedyPath(via, n).None?
    decreases n
  {
    hide GreedyHop;
    if h < n {
      NoneAfter(via, h, n - 1);
    }
  }

  lemma GreedyFails(via: Via, h: nat)
    requires h <= |via.forced| && GreedyPath(via, h).Some? && !GreedyHop(via, h, GreedyPath(via, h).value).found
    requires HopsArePriced(via, h)
    ensures GreedyPath(via, |via.forced| + 1).None? && HopsArePriced(via, |via.forced| + 1)
  {
    hide HopIsPriced, GreedyHop;
    NoneAfter(via, h + 1, |via.forced| + 1);
    forall j: nat | h <= j < |via.forced| + 1
      ensures FoundHopIsPriced(via, j)
    {
      NoneAfter(via, h + 1, j + 1);
    }
  }

  lemma GreedyBansExactly(via: Via, opts: SearchOptions, banned: seq<int>, path: Path, h: nat)
    requires opts == via.opts.(nodeFilter := via.opts.nodeFilter.(banned := banned))
    requires banned == InOrder(via.opts.nodeFilter.banned + (Passed(path) + Ahead(via, h)), VertexBefore)
    ensures BansExactly(via, opts, path, h) && opts == GreedyOptions(via, h, path)
  {
    hide InOrder;
    forall v
      ensures v in Passed(path) <==> LeftBehind(path, v)
      ensures v in Ahead(via, h) <==> StillAhead(via, h, v)
    {
      PassedIsBehind(path, v);
      AheadIsAhead(via, h, v);
    }
  }

  lemma PassedIsBehind(path: Path, v: int)
    ensures v in Passed(path) <==> LeftBehind(path, v)
  {
    var front := Passed(path);
    if i :| 0 <= i < |path| - 1 && path[i] == v {
      assert front[i] == v;
    }
    if i :| 0 <= i < |front| && front[i] == v {
      assert path[i] == v;
    }
  }

  lemma AheadIsAhead(via: Via, h: nat, v: int)
    ensures v in Ahead(via, h) <==> StillAhead(via, h, v)
  {
    var ahead := Ahead(via, h);
    if j :| h < j < |via.forced| && via.forced[j] == v {
      assert ahead[j - h - 1] == v;
    }
    if i :| 0 <= i < |ahead| && ahead[i] == v {
      assert via.forced[i + h + 1] == v;
    }
  }

  lemma GreedySeeds(via: Via, h: nat, arrival: real)
    requires SeedsNonNegative(via.sources) && SeedsNonNegative(via.goals)
    ensures SeedsNonNegative(GreedySources(via, h, arrival)) && SeedsNonNegative(HopGoals(via, h))
  {
  }

  lemma GreedyTaskIs(via: Via, h: nat, arrival: real, opts: SearchOptions)
    ensures GreedyTask(via, h, arrival, opts) == TaskFor(via.graph, opts, GreedySources(via, h, arrival), HopGoals(via, h))
  {
  }

  lemma GreedyMisses(via: Via, h: nat, path: Path, hop: ShortestPath)
    requires h <= |via.forced| && GreedyOk(via, h, path) && BansExactly(via, GreedyOptions(via, h, path), path, h)
    requires GreedyPath(via, h) == Some(path)
    requires Answers(GreedyHopTask(via, h, path), hop) && (hop.found ==> hop.vertices == [])
    ensures !hop.found && GreedyStuck(via)
  {
    hide GreedyOk, GreedyTask, BansExactly, Simple, WalkOf, GreedyOptions, GreedyPath;
    EmptyIsNoWalk(GreedyHopTask(via, h, path));
    assert !hop.found;
    assert GreedyStuckAt(via, h, path);
  }

  lemma GreedyDone(via: Via, path: Path)
    requires GreedyOk(via, |via.forced| + 1, path)
    ensures Good(WholeTask(via), path) && Visits(path, via.forced)
    ensures path != [] && InRange(WholeTask(via), path)
  {
    hide WholeTask, Visits;
    GoodFacts(WholeTask(via), path);
  }

  lemma GreedyIsFound(t: Task, path: Path, r: ShortestPath)
    requires Good(t, path) && path != []
    requires r.found <==> Seamed([path]) && Simple(Join([path])) && RecostOf(t, Join([path])).Some?
    requires r.found ==> r.vertices == Join([path]) && RecostOf(t, Join([path])) == Some(Leg(r.cost, r.distance))
    ensures r.found && r.vertices == path && Priced(t, r)
  {
    hide RecostOf, TotalOf, Accepts;
    AcceptedIsRecosted(t, path);
    assert Join([path]) == path;
  }

  // ---- The whole request ----------------------------------------------------------------------

  /** Some hop has no path at all. */
  ghost predicate HopUnroutable(via: Via) {
    exists h: nat :: h <= |via.forced| && NoHopPath(via, h)
  }

  ghost predicate NoHopPath(via: Via, h: nat) {
    forall p :: !Good(HopTask(via, h), p)
  }

  ghost predicate Routes(via: Via, results: seq<ShortestPath>) {
    forall r :: r in results ==> Priced(WholeTask(via), r) && Visits(r.vertices, via.forced)
  }

  /** The best stitches when there are any; otherwise at most one greedy route, or none where the greedy pass got stuck. */
  ghost predicate MergedOrGreedy(via: Via, k: nat, segments: seq<seq<ShortestPath>>, picks: nat, firm: nat, results: seq<ShortestPath>) {
    || (results != [] && BestStitches(via, k, segments, picks, firm, results))
    || (BestStitches(via, k, segments, picks, firm, []) && |results| <= 1 && Routes(via, results) && GreedyRoute(via, results))
  }

  /** Unless the budget ran out, the greedy pass runs only when no pick at all stitches to a loopless path. */
  lemma GreedyOnlyWhenNothingStitches(via: Via, k: nat, segments: seq<seq<ShortestPath>>, picks: nat, firm: nat, p: Pick)
    requires k > 0 && WithinBudget(segments, picks) && BestStitches(via, k, segments, picks, firm, [])
    ensures !ValidPick(segments, p)
  {
    assert !Returned([], Stitched(segments, p));
  }

  lemma MergedRoutes(via: Via, k: nat, segments: seq<seq<ShortestPath>>, picks: nat, firm: nat, results: seq<ShortestPath>)
    requires MergedOrGreedy(via, k, segments, picks, firm, results)
    ensures k > 0 ==> |results| <= k
    ensures Routes(via, results) && CostSorted(results) && DistinctRoutes(results)
  {
    hide Priced, Visits, Stitched, ValidPick, NoneDearer, GreedyRoute, Firm;
  }

  /** A hop's list is what its own run of Yen returns, stably sorted by cost. */
  ghost predicate HopList(via: Via, h: nat, k: nat, cands: seq<ShortestPath>) {
    exists found :: YenRun(HopTask(via, h), HopSources(via, h), HopGoals(via, h), k, found) && KShortest(HopTask(via, h), k, found)
                    && StablySorted(found, cands)
  }

  ghost predicate HopLists(via: Via, k: nat, segments: seq<seq<ShortestPath>>) {
    forall h: nat :: h < |segments| ==> HopList(via, h, k, segments[h])
  }

  /** One hop's alternatives, sorted by cost. */
  method HopCandidates(via: Via, h: nat, k: nat) returns (cands: seq<ShortestPath>)
    requires h <= |via.forced| && k > 0 && SearchBudget(via.graph.vertices, k - 1) < GENERATIONS
    requires SeedsNonNegative(via.sources) && SeedsNonNegative(via.goals)
    ensures KShortest(HopTask(via, h), k, cands) && CostSorted(cands) && HopList(via, h, k, cands)
    ensures cands == [] ==> NoHopPath(via, h)
  {
    hide KShortest, DistinctRoutes, CostSorted, TaskFor, Good, YenRun, OfCost;
    HopSeeds(via, h);
    var found := FindKShortestPathsMulti(via.graph, HopSources(via, h), HopGoals(via, h), k, via.opts);
    KShortestIsDistinct(HopTask(via, h), k, found);
    cands := SortByCost(found);
    SortedIsKShortest(HopTask(via, h), k, found, cands);
  }

  lemma HopSeeds(via: Via, h: nat)
    requires SeedsNonNegative(via.sources) && SeedsNonNegative(via.goals)
    ensures SeedsNonNegative(HopSources(via, h)) && SeedsNonNegative(HopGoals(via, h))
  {
  }

  /** A hop with candidates is routable. */
  lemma CandidateMeansRoutable(via: Via, k: int, h: nat, cands: seq<ShortestPath>)
    requires KShortest(HopTask(via, h), k, cands) && cands != []
    ensures !NoHopPath(via, h)
  {
    hide Good, HopTask;
    assert Priced(HopTask(via, h), cands[0]);
  }

  /**
   * Up to k routes through the forced fixes in order: none when a hop is unroutable, otherwise the
   * cheapest stitches of the hop alternatives, and failing any stitch the greedy route.
   */
  method FindPaths(via: Via, k: int) returns (results: seq<ShortestPath>, ghost picks: nat, ghost firm: nat)
    requires SeedsNonNegative(via.sources) && SeedsNonNegative(via.goals) && via.opts.turn.NonNegative()
    requires k > 0 ==> SearchBudget(via.graph.vertices, k - 1) < GENERATIONS
    ensures |results| <= if k <= 0 || via.forced == [] then 0 else k
    ensures Routes(via, results) && CostSorted(results) && DistinctRoutes(results)
    ensures k > 0 && via.forced != [] ==>
              if HopUnroutable(via) then results == []
              else exists segments ::
                Segments(via, k, segments) && HopLists(via, k, segments) && MergedOrGreedy(via, k, segments, picks, firm, results)
  {
    hide KShortest, CostSorted, DistinctRoutes, TaskFor, NoHopPath, HopTask, WholeTask, Priced, Visits;
    hide BestStitches, GreedyRoute, HopList, TurnPenalty.NonNegative, SeedsNonNegative;
    NoRoutes(via);
    results, picks, firm := [], 0, 0;
    if k <= 0 || via.forced == [] {
      return;
    }
    var segments: seq<seq<ShortestPath>> := [];
    for h := 0 to |via.forced| + 1
      invariant |segments| == h
      invariant forall j :: 0 <= j < h ==>
        segments[j] != [] && KShortest(HopTask(via, j), k, segments[j]) && CostSorted(segments[j])
      invariant HopLists(via, k, segments)
    {
      var cands := HopCandidates(via, h, k);
      if cands == [] {
        assert NoHopPath(via, h);
        return;
      }
      segments := segments + [cands];
    }
    assert Segments(via, k, segments);
    forall h: nat | h <= |via.forced|
      ensures !NoHopPath(via, h)
    {
      CandidateMeansRoutable(via, k, h, segments[h]);
    }
    var task := BuildTask(via.graph, via.opts, via.sources, via.goals);
    WholeTaskIs(via);
    results, picks, firm := MergeHops(via, task, k, segments);
    if results == [] {
      results := Greedy(via, task);
      assert MergedOrGreedy(via, k, segments, picks, firm, results);
    }
    MergedRoutes(via, k, segments, picks, firm, results);
  }

  lemma WholeTaskIs(via: Via)
    ensures WholeTask(via) == TaskFor(via.graph, via.opts, via.sources, via.goals)
  {
  }

  lemma NoRoutes(via: Via)
    ensures Routes(via, []) && CostSorted([]) && DistinctRoutes([])
  {
  }
}

/** Multi-source, multi-goal A* over a reusable workspace. */
module AStar {
  import opened Numbers
  import opened NavGraphs
  import opened SearchModel
  import opened PathCosts
  import opened Workspaces
  import opened AStarInvariants
  import opened AStarResults
  import opened SearchRuns

  datatype ShortestPath = ShortestPath(vertices: seq<int>, distance: real, cost: real, found: bool)

  const NOT_FOUND := ShortestPath([], 0.0, 0.0, false)

  /** What a search returns, as a function of its inputs alone. */
  ghost function SearchResult(t: Task, sources: seq<SeededEndpoint>, goals: seq<SeededEndpoint>): ShortestPath {
    if sources == [] then NOT_FOUND
    else ResultOf(t, Rounds(t, goals, Progress(SeededAll(t, goals, sources), [], Inf, NO_VERTEX)))
  }

  ghost function ResultOf(t: Task, x: Progress): ShortestPath {
    var labels := x.open.labels;
    if x.goal < 0 || x.best.Inf? || x.goal !in labels then NOT_FOUND
    else ShortestPath(Trail(labels, x.goal, |x.order|), labels[x.goal].geo + t.GoalSeedOf(x.goal), x.best.value, true)
  }

  /** What a search promises: an answer exactly when there is one, simple, correctly priced, and cheapest when exact. */
  ghost predicate Answers(t: Task, r: ShortestPath) {
    && (r.found <==> exists p :: Accepts(t, p))
    && (r.found ==>
          && Simple(r.vertices) && Accepts(t, r.vertices)
          && TotalOf(t, r.vertices) == Some(Leg(r.cost, r.distance)))
    && (!r.found ==> r == NOT_FOUND)
    && (r.found && Exact(t) ==> forall p :: Accepts(t, p) ==> r.cost <= CostOf(t, p))
  }

  /** The labels left after seeding a list of sources. */
  ghost predicate SeededBy(t: Task, es: seq<SeededEndpoint>, labels: map<int, Label>) {
    forall v ::
      && (v in labels <==> t.graph.Has(v) && !t.opts.nodeFilter.Blocks(v) && CheapestAt(es, v).Some?)
      && (v in labels ==> labels[v] == Label(SeedAt(es, v), SeedAt(es, v), NO_VERTEX, t.srcBearing[v]))
  }

  /** The sizes and tables every step of a search relies on. */
  ghost predicate Ready(t: Task, heuristic: MultiGoalHeuristic, ws: SearchWorkspace)
    reads ws, heuristic
  {
    && ws.Valid() && heuristic.Valid() && heuristic.graph == t.graph
    && ws.Slots() >= t.graph.vertices
  }

  /** The open-set facts that hold while the sources are being seeded. */
  ghost predicate SeedHeapOk(t: Task, goals: seq<SeededEndpoint>, labels: map<int, Label>, heap: seq<QueueNode>) {
    var s := Tree(labels, [], 0);
    Shape(t, s) && HeapCovers(t, goals, s, heap) && HeapAbove(t, goals, s, heap)
  }

  /** Seeds one source, if it is on the graph, unblocked, and cheaper than what its vertex has. */
  method SeedSource(t: Task, ghost before: seq<SeededEndpoint>, e: SeededEndpoint,
                    heuristic: MultiGoalHeuristic, ws: SearchWorkspace)
    requires Ready(t, heuristic, ws)
    requires SeededBy(t, before, ws.Labels()) && SeedHeapOk(t, heuristic.goals, ws.Labels(), ws.heap)
    modifies ws, heuristic
    ensures Ready(t, heuristic, ws) && ws.generation == old(ws.generation) && ws.Closed() == old(ws.Closed())
    ensures SeededBy(t, before + [e], ws.Labels()) && SeedHeapOk(t, heuristic.goals, ws.Labels(), ws.heap)
    ensures OpenSet(ws.Labels(), ws.heap) == SeededOne(t, heuristic.goals, old(OpenSet(ws.Labels(), ws.heap)), e)
  {
    hide SeedHeapOk, SeededBy, GoalBound, SearchWorkspace.Labels, SearchWorkspace.Closed, SearchWorkspace.Valid;
    ghost var labels, heap := ws.Labels(), ws.heap;
    SeedingStep(t, before, e, labels);
    if 0 <= e.vertex < t.graph.vertices && !t.opts.nodeFilter.Blocks(e.vertex) {
      var g := ws.G(e.vertex);
      if Fin(e.cost).Less(g) {
        ws.Relax(e.vertex, Label(e.cost, e.cost, NO_VERTEX, t.srcBearing[e.vertex]));
        var h := heuristic.Eval(e.vertex);
        ws.PushHeap(QueueNode(h.Plus(e.cost), e.vertex));
        SeedingKeepsHeap(t, heuristic.goals, labels, heap, e.vertex, ws.Labels()[e.vertex]);
      }
    }
  }

  /** Relabelling a cheaper source keeps the labels those of the sources seen; a dearer one changes nothing. */
  lemma SeedingStep(t: Task, before: seq<SeededEndpoint>, e: SeededEndpoint, labels: map<int, Label>)
    requires SeededBy(t, before, labels)
    ensures var v := e.vertex;
            if t.graph.Has(v) && !t.opts.nodeFilter.Blocks(v) && (v in labels ==> e.cost < labels[v].g)
            then SeededBy(t, before + [e], labels[v := Label(e.cost, e.cost, NO_VERTEX, t.SourceBearingOf(v))])
            else SeededBy(t, before + [e], labels)
  {
    assert (before + [e])[..|before|] == before;
  }

  method SeedSources(t: Task, sources: seq<SeededEndpoint>, heuristic: MultiGoalHeuristic, ws: SearchWorkspace)
    requires Ready(t, heuristic, ws)
    requires ws.Labels() == map[] && ws.heap == []
    modifies ws, heuristic
    ensures Ready(t, heuristic, ws) && ws.generation == old(ws.generation) && ws.Closed() == old(ws.Closed())
    ensures SeededBy(t, sources, ws.Labels()) && SeedHeapOk(t, heuristic.goals, ws.Labels(), ws.heap)
    ensures OpenSet(ws.Labels(), ws.heap) == SeededAll(t, heuristic.goals, sources)
  {
    hide SeedHeapOk, SeededBy, SeededOne, SearchWorkspace.Labels, SearchWorkspace.Closed, SearchWorkspace.Valid;
    NoHeapYet(t, heuristic.goals);
    for i := 0 to |sources|
      invariant Ready(t, heuristic, ws) && ws.generation == old(ws.generation) && ws.Closed() == old(ws.Closed())
      invariant SeededBy(t, sources[..i], ws.Labels()) && SeedHeapOk(t, heuristic.goals, ws.Labels(), ws.heap)
      invariant OpenSet(ws.Labels(), ws.heap) == SeededAll(t, heuristic.goals, sources[..i])
    {
      assert sources[..i + 1] == sources[..i] + [sources[i]] && sources[..i + 1][..i] == sources[..i];
      SeedSource(t, sources[..i], sources[i], heuristic, ws);
    }
    assert sources[..|sources|] == sources;
  }

  lemma SeedingKeepsHeap(t: Task, goals: seq<SeededEndpoint>, labels: map<int, Label>, heap: seq<QueueNode>, v: int, l: Label)
    requires SeedHeapOk(t, goals, labels, heap) && t.graph.Has(v) && !t.opts.nodeFilter.Blocks(v)
    requires v in labels ==> l.g <= labels[v].g
    ensures SeedHeapOk(t, goals, labels[v := l], heap + [QueueNode(GoalBound(t.graph, goals, v).Plus(l.g), v)])
  {
    var was, s := Tree(labels, [], 0), Tree(labels[v := l], [], 0);
    var q := QueueNode(GoalBound(t.graph, goals, v).Plus(l.g), v);
    forall w | w in s.labels
      ensures QueueNode(F(t, goals, s, w), w) in heap + [q]
    {
      if w != v {
        assert QueueNode(F(t, goals, was, w), w) in heap;
      }
    }
    forall p | p in heap + [q]
      ensures p.vertex in s.labels && F(t, goals, s, p.vertex).AtMost(p.f)
    {
      if p != q {
        assert p in heap;
      }
    }
  }

  lemma SeededIsInvariant(t: Task, sources: seq<SeededEndpoint>, goals: seq<SeededEndpoint>,
                          labels: map<int, Label>, heap: seq<QueueNode>)
    requires SeedsNonNegative(sources) && IsSeedTable(t.seed, sources, t.graph.vertices)
    requires SeededBy(t, sources, labels) && SeedHeapOk(t, goals, labels, heap)
    ensures Invariant(t, goals, Tree(labels, [], 0), heap)
  {
    var s := Tree(labels, [], 0);
    forall v | v in labels
      ensures LabelOk(t, s, v)
    {
      assert sources[CheapestAt(sources, v).value].cost >= 0.0;
    }
  }

  /** The label the edge at k would give its target, or None when a filter or constraint bars it. */
  method OfferOf(t: Task, ws: SearchWorkspace, u: int, k: nat) returns (offer: Option<Label>)
    requires ws.Valid() && ws.Slots() >= t.graph.vertices
    requires t.graph.Has(u) && t.graph.EdgesBegin(u) <= k < t.graph.EdgesEnd(u) && u in ws.Labels()
    ensures offer.Some? <==> UsableFrom(t, u, k)
    ensures offer.Some? ==> offer.value == Extend(t, ws.Labels()[u], u, k)
  {
    var e := t.graph.edges[k];
    if t.opts.nodeFilter.Blocks(e.to) || t.opts.edgeFilter.Blocks(u, e.to) {
      return None;
    }
    var allowed, extra := EdgeAllowed(t.graph, t.opts, k);
    if !allowed {
      return None;
    }
    var inbound := ws.Inbound(u);
    var turnCost, outbound := 0.0, NO_BEARING;
    if t.opts.turn.enabled {
      outbound := t.graph.Bearing(u, e.to);
      if inbound >= 0.0 {
        turnCost := t.opts.turn.Of(TurnAngle(inbound, outbound));
      }
    }
    var g := ws.G(u);
    var geo := ws.Geo(u);
    offer := Some(Label(g.value + e.distance + extra + turnCost, geo + e.distance, u, outbound));
  }

  lemma ScannedKeeps(t: Task, goals: seq<SeededEndpoint>, order: seq<int>, x: OpenSet, u: int, k: nat)
    requires var s := Tree(x.labels, order, k);
             Invariant(t, goals, s, x.heap) && AtEdge(t, s, u) && F(t, goals, s, u).Fin?
    ensures var y := Scanned(t, goals, order, x, u, k);
            && Invariant(t, goals, Tree(y.labels, order, k + 1), y.heap)
            && forall w :: w in order ==> w in x.labels && w in y.labels && y.labels[w] == x.labels[w]
  {
    hide Invariant, UsableFrom, Extend;
    var s := Tree(x.labels, order, k);
    var v := t.graph.Target(k);
    ClosedAreLabelled(t, goals, s, x.heap);
    if Offers(t, order, x.labels, u, k) {
      RelabelKeeps(t, goals, s, x.heap, u, QueueNode(GoalBound(t.graph, goals, v).Plus(Extend(t, x.labels[u], u, k).g), v));
    } else {
      PassKeeps(t, goals, s, x.heap, u);
    }
  }

  lemma ClosedAreLabelled(t: Task, goals: seq<SeededEndpoint>, s: Tree, heap: seq<QueueNode>)
    requires Invariant(t, goals, s, heap)
    ensures forall w :: w in s.order ==> w in s.labels
    ensures forall w :: w in s.labels ==> t.graph.Has(w)
  {
  }

  lemma {:induction false} ScannedRowKeeps(t: Task, goals: seq<SeededEndpoint>, order: seq<int>, x: OpenSet, u: int, k: nat)
    requires t.graph.Has(u) && t.graph.EdgesBegin(u) <= k <= t.graph.EdgesEnd(u)
    requires var s := Tree(x.labels, order, t.graph.EdgesBegin(u));
             Invariant(t, goals, s, x.heap) && Current(s, u) && F(t, goals, s, u).Fin?
    ensures var y := ScannedRow(t, goals, order, x, u, k);
            && Invariant(t, goals, Tree(y.labels, order, k), y.heap)
            && forall w :: w in order ==> w in x.labels && w in y.labels && y.labels[w] == x.labels[w]
  {
    hide Invariant, Scanned;
    ClosedAreLabelled(t, goals, Tree(x.labels, order, t.graph.EdgesBegin(u)), x.heap);
    if k > t.graph.EdgesBegin(u) {
      ScannedRowKeeps(t, goals, order, x, u, k - 1);
      var y := ScannedRow(t, goals, order, x, u, k - 1);
      ScannedKeeps(t, goals, order, y, u, k - 1);
    }
  }

  /** One edge of the row being expanded: skipped, or used to relabel its target and push it. */
  method ScanEdge(t: Task, heuristic: MultiGoalHeuristic, ws: SearchWorkspace, ghost order: seq<int>, u: int, k: nat)
    requires Ready(t, heuristic, ws) && (forall v :: v in ws.Closed() <==> v in order)
    requires t.graph.Has(u) && t.graph.EdgesBegin(u) <= k < t.graph.EdgesEnd(u) && u in ws.Labels()
    modifies ws, heuristic
    ensures Ready(t, heuristic, ws) && ws.generation == old(ws.generation) && ws.Closed() == old(ws.Closed())
    ensures OpenSet(ws.Labels(), ws.heap) ==
            Scanned(t, heuristic.goals, order, old(OpenSet(ws.Labels(), ws.heap)), u, k)
  {
    hide UsableFrom, Extend, GoalBound;
    var v := t.graph.Target(k);
    var closed := ws.IsClosed(v);
    var offer := OfferOf(t, ws, u, k);
    if !closed && offer.Some? {
      var g := ws.G(v);
      if Fin(offer.value.g).Less(g) {
        ws.Relax(v, offer.value);
        var h := heuristic.Eval(v);
        ws.PushHeap(QueueNode(h.Plus(offer.value.g), v));
      }
    }
  }

  /** Relaxes every out-edge of the vertex just closed. */
  method ExpandRow(t: Task, heuristic: MultiGoalHeuristic, ws: SearchWorkspace, ghost order: seq<int>, u: int)
    requires Ready(t, heuristic, ws) && (forall v :: v in ws.Closed() <==> v in order)
    requires t.graph.Has(u) && u in ws.Labels() && u in order
    modifies ws, heuristic
    ensures Ready(t, heuristic, ws) && ws.generation == old(ws.generation) && ws.Closed() == old(ws.Closed())
    ensures OpenSet(ws.Labels(), ws.heap) ==
            ScannedRow(t, heuristic.goals, order, old(OpenSet(ws.Labels(), ws.heap)), u, t.graph.EdgesEnd(u))
  {
    hide Offers;
    for k := t.graph.EdgesBegin(u) to t.graph.EdgesEnd(u)
      invariant Ready(t, heuristic, ws) && ws.generation == old(ws.generation) && ws.Closed() == old(ws.Closed())
      invariant u in ws.Labels()
      invariant OpenSet(ws.Labels(), ws.heap) ==
                ScannedRow(t, heuristic.goals, order, old(OpenSet(ws.Labels(), ws.heap)), u, k)
    {
      ScanEdge(t, heuristic, ws, order, u, k);
    }
  }

  /** The total of ending at a closed vertex, turn onto the goal's heading included. */
  method EndingOf(t: Task, ws: SearchWorkspace, u: int) returns (total: Option<real>)
    requires ws.Valid() && ws.Slots() >= t.graph.vertices && t.graph.Has(u) && u in ws.Labels()
    ensures var end := EndingAt(t, ws.Labels(), u);
            total == if end.Some? then Some(end.value.cost) else None
  {
    if t.goalSeed[u] < 0.0 {
      return None;
    }
    var g := ws.G(u);
    var inbound := ws.Inbound(u);
    var sum := g.value + t.goalSeed[u];
    if t.opts.turn.enabled && inbound >= 0.0 && t.goalBearing[u] >= 0.0 {
      sum := sum + t.opts.turn.Of(TurnAngle(inbound, t.goalBearing[u]));
    }
    total := Some(sum);
  }

  /** The loop's state between two pops. */
  ghost predicate Searching(t: Task, goals: seq<SeededEndpoint>, s: Tree, heap: seq<QueueNode>, best: Ext, goal: int) {
    Invariant(t, goals, s, heap) && RowDone(t, s) && BestOk(t, s, best, goal)
  }

  /** One round on plain values: close the popped vertex, offer its ending, scan its row. */
  lemma RoundKeeps(t: Task, goals: seq<SeededEndpoint>, s: Tree, heap: seq<QueueNode>, best: Ext, goal: int,
                   top: QueueNode, rest: seq<QueueNode>)
    requires Searching(t, goals, s, heap, best, goal)
    requires top in heap && top.vertex !in s.order && top.f.Less(best)
    requires forall q :: q in heap ==> top.f.AtMost(q.f) && (q == top || q in rest)
    requires forall q :: q in rest ==> q in heap
    ensures var u, order := top.vertex, s.order + [top.vertex];
            var end := EndingAt(t, s.labels, u);
            var y := ScannedRow(t, goals, order, OpenSet(s.labels, rest), u, t.graph.EdgesEnd(u));
            var s' := Tree(y.labels, order, t.graph.EdgesEnd(u));
            && u in s.labels && t.graph.Has(u)
            && (if end.Some? && Fin(end.value.cost).Less(best)
                then Searching(t, goals, s', y.heap, Fin(end.value.cost), u)
                else Searching(t, goals, s', y.heap, best, goal))
  {
    hide Invariant, ScannedRow, BestOk, EndingAt;
    var u, order := top.vertex, s.order + [top.vertex];
    CloseKeeps(t, goals, s, heap, top, rest);
    var c := Close(t, s, u);
    ClosedAreLabelled(t, goals, c, rest);
    FinishKeepsBest(t, s, u, best, goal);
    var x := OpenSet(s.labels, rest);
    ScannedRowKeeps(t, goals, order, x, u, t.graph.EdgesEnd(u));
    var y := ScannedRow(t, goals, order, x, u, t.graph.EdgesEnd(u));
    var s' := Tree(y.labels, order, t.graph.EdgesEnd(u));
    var end := EndingAt(t, s.labels, u);
    if end.Some? && Fin(end.value.cost).Less(best) {
      BestSurvives(t, c, s', Fin(end.value.cost), u);
    } else {
      BestSurvives(t, c, s', best, goal);
    }
  }

  lemma StaleRoundKeeps(t: Task, goals: seq<SeededEndpoint>, s: Tree, heap: seq<QueueNode>, best: Ext, goal: int,
                        top: QueueNode, rest: seq<QueueNode>)
    requires Searching(t, goals, s, heap, best, goal) && top.vertex in s.order
    requires forall q :: q in heap ==> q == top || q in rest
    requires forall q :: q in rest ==> q in heap
    ensures Searching(t, goals, s, rest, best, goal)
  {
    hide BestOk;
    StaleKeeps(t, goals, s, heap, top, rest);
  }

  /** Follows the predecessors from a goal back to a source, then turns the list around. */
  method Rebuild(t: Task, ws: SearchWorkspace, goal: int, ghost s: Tree) returns (vertices: seq<int>)
    requires ws.Valid() && ws.Slots() >= t.graph.vertices
    requires TreeOk(t, s) && s.labels == ws.Labels() && goal in s.labels
    ensures vertices == PathTo(t, s, goal)
  {
    hide LabelOk, Shape, PathTo, Rank, SearchWorkspace.Labels, SearchWorkspace.Valid, Reversed;
    PathToStep(t, s, goal);
    var backwards := [];
    var at := goal;
    ghost var rest := [];
    assert Reversed([]) == [] by { ReversedEmpty(); }
    assert PathTo(t, s, goal) + rest == PathTo(t, s, goal);
    while at != NO_VERTEX
      invariant at == NO_VERTEX || at in s.labels
      invariant rest == Reversed(backwards)
      invariant PathTo(t, s, goal) == if at == NO_VERTEX then rest else PathTo(t, s, at) + rest
      decreases if at == NO_VERTEX then 0 else Rank(s.order, at) + 1
    {
      PathToStep(t, s, at);
      ReversedAppend(backwards, at);
      ghost var prev := s.labels[at].prev;
      assert prev != NO_VERTEX ==> (PathTo(t, s, prev) + [at]) + rest == PathTo(t, s, prev) + ([at] + rest);
      backwards, rest := backwards + [at], [at] + rest;
      at := ws.Prev(at);
    }
    vertices := Reversed(backwards);
  }

  lemma ReversedEmpty()
    ensures Reversed([]) == []
  {
  }

  function Reversed(p: seq<int>): seq<int> {
    if p == [] then [] else [p[|p| - 1]] + Reversed(p[..|p| - 1])
  }

  lemma ReversedAppend(p: seq<int>, v: int)
    ensures Reversed(p + [v]) == [v] + Reversed(p)
  {
    assert (p + [v])[..|p|] == p;
  }

  /** The search loop: pop, close, offer the ending, scan the row, until nothing open can beat the best. */
  method Explore(t: Task, heuristic: MultiGoalHeuristic, ws: SearchWorkspace)
    returns (best: Ext, goal: int, ghost s: Tree, ghost heap: seq<QueueNode>)
    requires Ready(t, heuristic, ws) && ws.Closed() == {}
    requires Invariant(t, heuristic.goals, Tree(ws.Labels(), [], 0), ws.heap)
    modifies ws, heuristic
    ensures Ready(t, heuristic, ws) && ws.generation == old(ws.generation)
    ensures s.labels == ws.Labels()
    ensures Searching(t, heuristic.goals, s, heap, best, goal)
    ensures forall q :: q in heap ==> best.AtMost(q.f)
    ensures Progress(OpenSet(s.labels, heap), s.order, best, goal) ==
            Rounds(t, heuristic.goals, Progress(old(OpenSet(ws.Labels(), ws.heap)), [], Inf, NO_VERTEX))
  {
    hide Invariant, Searching, BestOk, ScannedRow, EndingAt, FirstLeast, Without, Round, Rounds;
    hide SearchWorkspace.Labels, SearchWorkspace.Closed, SearchWorkspace.Valid;
    ghost var start := Progress(OpenSet(ws.Labels(), ws.heap), [], Inf, NO_VERTEX);
    best, goal := Inf, NO_VERTEX;
    s := Tree(ws.Labels(), [], 0);
    NothingFinished(t, heuristic.goals, s, ws.heap);
    while ws.heap != []
      invariant Ready(t, heuristic, ws) && ws.generation == old(ws.generation)
      invariant s.labels == ws.Labels() && forall v :: v in ws.Closed() <==> v in s.order
      invariant Searching(t, heuristic.goals, s, ws.heap, best, goal)
      invariant Rounds(t, heuristic.goals, Progress(OpenSet(s.labels, ws.heap), s.order, best, goal)) ==
                Rounds(t, heuristic.goals, start)
      decreases t.graph.vertices - |s.order|, |ws.heap|
    {
      heap := ws.heap;
      PoppedIsLeast(heap);
      OrderIsBounded(t, heuristic.goals, s, heap, best, goal);
      RoundsStep(t, heuristic.goals, Progress(OpenSet(s.labels, heap), s.order, best, goal));
      var top := ws.PopHeap();
      var u := top.vertex;
      HeapIsLabelled(t, heuristic.goals, s, heap, best, goal);
      var closed := ws.IsClosed(u);
      if closed {
        StaleRoundKeeps(t, heuristic.goals, s, heap, best, goal, top, ws.heap);
        continue;
      }
      if best.AtMost(top.f) {
        return best, goal, s, heap;
      }
      RoundKeeps(t, heuristic.goals, s, heap, best, goal, top, ws.heap);
      RoundIs(t, heuristic.goals, Progress(OpenSet(s.labels, heap), s.order, best, goal), u, ws.heap);
      ws.MarkClosed(u);
      var end := EndingOf(t, ws, u);
      if end.Some? && Fin(end.value).Less(best) {
        best, goal := Fin(end.value), u;
      }
      ExpandRow(t, heuristic, ws, s.order + [u], u);
      s := Tree(ws.Labels(), s.order + [u], t.graph.EdgesEnd(u));
      OrderIsBounded(t, heuristic.goals, s, ws.heap, best, goal);
    }
    heap := [];
    RoundsEnd(t, heuristic.goals, Progress(OpenSet(s.labels, []), s.order, best, goal));
  }

  lemma RoundsEnd(t: Task, goals: seq<SeededEndpoint>, x: Progress)
    requires x.open.heap == []
    ensures Rounds(t, goals, x) == x
  {
  }

  lemma RoundsStep(t: Task, goals: seq<SeededEndpoint>, x: Progress)
    requires x.open.heap != [] && |x.order| <= t.graph.vertices
    ensures var i := FirstLeast(x.open.heap);
            var top, rest := x.open.heap[i], Without(x.open.heap, i);
            Rounds(t, goals, x) ==
              if top.vertex in x.order then Rounds(t, goals, Progress(OpenSet(x.open.labels, rest), x.order, x.best, x.goal))
              else if x.best.AtMost(top.f) then x
              else Rounds(t, goals, Round(t, goals, x, top.vertex, rest))
  {
    hide Round;
  }

  lemma RoundIs(t: Task, goals: seq<SeededEndpoint>, x: Progress, u: int, rest: seq<QueueNode>)
    ensures var order, end := x.order + [u], EndingAt(t, x.open.labels, u);
            var open := ScannedRow(t, goals, order, OpenSet(x.open.labels, rest), u, t.graph.EdgesEnd(u));
            Round(t, goals, x, u, rest) ==
              if end.Some? && Fin(end.value.cost).Less(x.best) then Progress(open, order, Fin(end.value.cost), u)
              else Progress(open, order, x.best, x.goal)
  {
  }

  lemma NothingFinished(t: Task, goals: seq<SeededEndpoint>, s: Tree, heap: seq<QueueNode>)
    requires s.order == [] && Invariant(t, goals, s, heap)
    ensures Searching(t, goals, s, heap, Inf, NO_VERTEX)
  {
    hide Invariant;
  }

  lemma HeapIsLabelled(t: Task, goals: seq<SeededEndpoint>, s: Tree, heap: seq<QueueNode>, best: Ext, goal: int)
    requires Searching(t, goals, s, heap, best, goal)
    ensures forall q :: q in heap ==> q.vertex in s.labels && t.graph.Has(q.vertex)
  {
  }

  lemma OrderIsBounded(t: Task, goals: seq<SeededEndpoint>, s: Tree, heap: seq<QueueNode>, best: Ext, goal: int)
    requires Searching(t, goals, s, heap, best, goal)
    ensures |s.order| <= t.graph.vertices
  {
    assert Simple(s.order) && forall i :: 0 <= i < |s.order| ==> s.order[i] in s.labels && t.graph.Has(s.order[i]);
    SimpleIsBounded(s.order, t.graph.vertices);
  }

  /** The rebuilt path to the best goal is the answer. */
  lemma BestIsAnswer(t: Task, goals: seq<SeededEndpoint>, s: Tree, heap: seq<QueueNode>, best: Ext, goal: int,
                     r: ShortestPath)
    requires Searching(t, goals, s, heap, best, goal) && GoalsCovered(t, goals)
    requires forall q :: q in heap ==> best.AtMost(q.f)
    requires goal in s.labels && goal in s.order && EndingAt(t, s.labels, goal).Some?
    requires best == Fin(EndingAt(t, s.labels, goal).value.cost)
    requires r == ShortestPath(PathTo(t, s, goal), EndingAt(t, s.labels, goal).value.distance, best.value, true)
    ensures Answers(t, r)
  {
    hide Invariant, BestOk, LabelOk, PathTo, WalkOf, Simple;
    assert TreeOk(t, s) by { InvariantHasTree(t, goals, s, heap); }
    PathToRanks(t, s, goal);
    PathToIsWalk(t, s, goal);
    assert Accepts(t, r.vertices);
    forall p | Accepts(t, p)
      ensures Exact(t) ==> r.cost <= CostOf(t, p)
    {
      NothingBetter(t, goals, s, heap, best, goal, p);
    }
  }

  lemma InvariantHasTree(t: Task, goals: seq<SeededEndpoint>, s: Tree, heap: seq<QueueNode>)
    requires Invariant(t, goals, s, heap)
    ensures TreeOk(t, s)
  {
  }

  lemma NoGoalNoPath(t: Task, goals: seq<SeededEndpoint>, s: Tree, heap: seq<QueueNode>)
    requires Searching(t, goals, s, heap, Inf, NO_VERTEX) && GoalsCovered(t, goals)
    requires forall q :: q in heap ==> q.f == Inf
    ensures Answers(t, NOT_FOUND)
  {
    hide Invariant, BestOk;
    forall p | Accepts(t, p)
      ensures false
    {
      NothingBetter(t, goals, s, heap, Inf, NO_VERTEX, p);
    }
  }

  /** Without a source nothing is accepted. */
  lemma NoSourceNoPath(t: Task)
    requires forall v :: t.SeedOf(v) < 0.0
    ensures Answers(t, NOT_FOUND)
  {
    forall p
      ensures !Accepts(t, p)
    {
      if p != [] {
        UnseededIsRejected(t, p);
      }
    }
  }

  /** What the finished loop says about its best goal. */
  lemma BestGoalFacts(t: Task, goals: seq<SeededEndpoint>, s: Tree, heap: seq<QueueNode>, best: Ext, goal: int)
    requires Searching(t, goals, s, heap, best, goal)
    ensures TreeOk(t, s)
    ensures goal == NO_VERTEX ==> best == Inf
    ensures goal != NO_VERTEX ==>
              && goal in s.order && goal in s.labels && t.graph.Has(goal) && EndingAt(t, s.labels, goal).Some?
              && best == Fin(EndingAt(t, s.labels, goal).value.cost)
  {
  }

  /**
   * The finished search behind an answer, whatever the turn penalty: the path leads back from the least ending over all
   * closed vertices, and nothing still open promises less.
   */
  ghost predicate Finished(t: Task, goals: seq<SeededEndpoint>, s: Tree, heap: seq<QueueNode>, best: Ext, goal: int, r: ShortestPath) {
    && Searching(t, goals, s, heap, best, goal) && (forall q :: q in heap ==> best.AtMost(q.f))
    && (goal == NO_VERTEX ==> r == NOT_FOUND)
    && (goal != NO_VERTEX ==>
          goal in s.labels && best.Fin? && r.found && r.vertices == PathTo(t, s, goal) && r.cost == best.value)
  }

  ghost predicate Settles(t: Task, goals: seq<SeededEndpoint>, r: ShortestPath) {
    exists s, heap, best, goal :: Finished(t, goals, s, heap, best, goal, r)
  }

  lemma NothingToSettle(t: Task, sources: seq<SeededEndpoint>, goals: seq<SeededEndpoint>)
    requires IsSeedTable(t.seed, sources, t.graph.vertices) && sources == []
    ensures Settles(t, goals, NOT_FOUND)
  {
    var s := Tree(map[], [], 0);
    assert forall v :: t.SeedOf(v) < 0.0;
    assert Finished(t, goals, s, [], Inf, NO_VERTEX, NOT_FOUND);
  }

  /** Clears whatever earlier searches left and seeds the sources. */
  method Prepare(t: Task, sources: seq<SeededEndpoint>, heuristic: MultiGoalHeuristic, ws: SearchWorkspace)
    requires ws.Valid() && ws.generation + 1 < GENERATIONS
    requires heuristic.Valid() && heuristic.graph == t.graph
    requires SeedsNonNegative(sources) && IsSeedTable(t.seed, sources, t.graph.vertices)
    modifies ws, heuristic
    ensures Ready(t, heuristic, ws) && ws.generation == old(ws.generation) + 1 && ws.Closed() == {}
    ensures Invariant(t, heuristic.goals, Tree(ws.Labels(), [], 0), ws.heap)
    ensures OpenSet(ws.Labels(), ws.heap) == SeededAll(t, heuristic.goals, sources)
  {
    hide Invariant, SeededBy, SeedHeapOk, SeededAll, SearchWorkspace.Labels, SearchWorkspace.Closed, SearchWorkspace.Valid;
    ws.Reset(t.graph.vertices);
    ws.NextGeneration();
    ws.ClearHeap();
    SeedSources(t, sources, heuristic, ws);
    SeededIsInvariant(t, sources, heuristic.goals, ws.Labels(), ws.heap);
  }

  /**
   * The cheapest path from any source to any goal, seeds included. The workspace may be dirty and the heuristic's
   * memory filled in any order: the answer is a function of the task, the sources and the goals.
   */
  method FindShortestPathMulti(t: Task, sources: seq<SeededEndpoint>, heuristic: MultiGoalHeuristic, ws: SearchWorkspace)
    returns (r: ShortestPath)
    requires ws.Valid() && ws.generation + 1 < GENERATIONS
    requires heuristic.Valid() && heuristic.graph == t.graph
    requires SeedsNonNegative(sources) && IsSeedTable(t.seed, sources, t.graph.vertices)
    requires GoalsCovered(t, heuristic.goals)
    modifies ws, heuristic
    ensures ws.Valid() && heuristic.Valid() && ws.generation <= old(ws.generation) + 1
    ensures Answers(t, r) && Settles(t, heuristic.goals, r) && r == SearchResult(t, sources, heuristic.goals)
  {
    hide Settles, Finished;
    hide Invariant, Searching, TreeOk, PathTo, BestOk, Answers, EndingAt, Rounds, SeededAll, Trail;
    hide SearchWorkspace.Labels, SearchWorkspace.Closed, SearchWorkspace.Valid;
    r := NOT_FOUND;
    if sources == [] {
      NoSourceNoPath(t);
      NothingToSettle(t, sources, heuristic.goals);
      return;
    }
    Prepare(t, sources, heuristic, ws);
    var best, goal;
    ghost var s, heap;
    best, goal, s, heap := Explore(t, heuristic, ws);
    BestGoalFacts(t, heuristic.goals, s, heap, best, goal);
    ghost var x := Progress(OpenSet(s.labels, heap), s.order, best, goal);
    assert sources != [] && SearchResult(t, sources, heuristic.goals) == ResultOf(t, x);
    if goal < 0 {
      NoGoalNoPath(t, heuristic.goals, s, heap);
      SettledHere(t, heuristic.goals, s, heap, best, goal, r);
      return;
    }
    var vertices := Rebuild(t, ws, goal, s);
    var geo := ws.Geo(goal);
    r := ShortestPath(vertices, geo + t.goalSeed[goal], best.value, true);
    EndingDistance(t, s.labels, goal);
    TrailIsPath(t, s, goal, |s.order|) by { RankOfClosed(s.order, goal); }
    BestIsAnswer(t, heuristic.goals, s, heap, best, goal, r);
    SettledHere(t, heuristic.goals, s, heap, best, goal, r);
  }

  lemma SettledHere(t: Task, goals: seq<SeededEndpoint>, s: Tree, heap: seq<QueueNode>, best: Ext, goal: int, r: ShortestPath)
    requires Searching(t, goals, s, heap, best, goal) && forall q :: q in heap ==> best.AtMost(q.f)
    requires goal == NO_VERTEX ==> r == NOT_FOUND
    requires goal != NO_VERTEX ==>
               goal in s.labels && best.Fin? && TreeOk(t, s) && r.found && r.vertices == PathTo(t, s, goal) && r.cost == best.value
    ensures Settles(t, goals, r)
  {
    hide Searching, PathTo, TreeOk;
    assert Finished(t, goals, s, heap, best, goal, r);
  }

  lemma RankOfClosed(order: seq<int>, v: int)
    requires v in order
    ensures Rank(order, v) < |order|
  {
  }

  lemma EndingDistance(t: Task, labels: map<int, Label>, goal: int)
    requires EndingAt(t, labels, goal).Some? && goal in labels && t.graph.Has(goal)
    ensures EndingAt(t, labels, goal).value.distance == labels[goal].geo + t.goalSeed[goal]
  {
  }

  lemma NoHeapYet(t: Task, goals: seq<SeededEndpoint>)
    ensures SeededBy(t, [], map[]) && SeedHeapOk(t, goals, map[], [])
  {
  }
}

/** The search as a function of its inputs: what each step makes of labels, closing order, heap and best total. */
module SearchRuns {
  import opened Numbers
  import opened NavGraphs
  import opened SearchModel
  import opened PathCosts
  import opened Workspaces
  import opened AStarInvariants
  import opened AStarResults

  /** The part of the workspace a row scan changes. */
  datatype OpenSet = OpenSet(labels: map<int, Label>, heap: seq<QueueNode>)

  /** One source: seeds its vertex if it is on the graph, unblocked, and cheaper than what the vertex has. */
  ghost function SeededOne(t: Task, goals: seq<SeededEndpoint>, x: OpenSet, e: SeededEndpoint): OpenSet {
    var v := e.vertex;
    if t.graph.Has(v) && !t.opts.nodeFilter.Blocks(v) && (v in x.labels ==> e.cost < x.labels[v].g) then
      OpenSet(x.labels[v := Label(e.cost, e.cost, NO_VERTEX, t.SourceBearingOf(v))],
              x.heap + [QueueNode(GoalBound(t.graph, goals, v).Plus(e.cost), v)])
    else x
  }

  ghost function SeededAll(t: Task, goals: seq<SeededEndpoint>, sources: seq<SeededEndpoint>): OpenSet {
    if sources == [] then OpenSet(map[], [])
    else SeededOne(t, goals, SeededAll(t, goals, sources[..|sources| - 1]), sources[|sources| - 1])
  }

  ghost predicate Offers(t: Task, order: seq<int>, labels: map<int, Label>, u: int, k: nat) {
    && u in labels && UsableFrom(t, u, k) && t.graph.Target(k) !in order
    && (t.graph.Target(k) in labels ==> Extend(t, labels[u], u, k).g < labels[t.graph.Target(k)].g)
  }

  /** One edge of the row: an improving edge relabels its target and pushes it; any other changes nothing. */
  ghost function Scanned(t: Task, goals: seq<SeededEndpoint>, order: seq<int>, x: OpenSet, u: int, k: nat): OpenSet {
    if Offers(t, order, x.labels, u, k) then
      var v, l := t.graph.Target(k), Extend(t, x.labels[u], u, k);
      OpenSet(x.labels[v := l], x.heap + [QueueNode(GoalBound(t.graph, goals, v).Plus(l.g), v)])
    else x
  }

  /** The row of u up to position k. */
  ghost function ScannedRow(t: Task, goals: seq<SeededEndpoint>, order: seq<int>, x: OpenSet, u: int, k: nat): OpenSet {
    if k <= t.graph.EdgesBegin(u) then x
    else Scanned(t, goals, order, ScannedRow(t, goals, order, x, u, k - 1), u, k - 1)
  }

  /** Everything the loop carries from one pop to the next. */
  datatype Progress = Progress(open: OpenSet, order: seq<int>, best: Ext, goal: int)

  /** A fresh vertex is popped: it is closed, its ending offered, its row scanned. */
  ghost function Round(t: Task, goals: seq<SeededEndpoint>, x: Progress, u: int, rest: seq<QueueNode>): Progress {
    var order := x.order + [u];
    var end := EndingAt(t, x.open.labels, u);
    var open := ScannedRow(t, goals, order, OpenSet(x.open.labels, rest), u, t.graph.EdgesEnd(u));
    if end.Some? && Fin(end.value.cost).Less(x.best) then Progress(open, order, Fin(end.value.cost), u)
    else Progress(open, order, x.best, x.goal)
  }

  /** The loop run to its end. No more vertices can be closed than the graph has. */
  ghost function Rounds(t: Task, goals: seq<SeededEndpoint>, x: Progress): Progress
    decreases t.graph.vertices + 1 - |x.order|, |x.open.heap|
  {
    if x.open.heap == [] || |x.order| > t.graph.vertices then x
    else
      var i := FirstLeast(x.open.heap);
      var top, rest := x.open.heap[i], Without(x.open.heap, i);
      if top.vertex in x.order then Rounds(t, goals, x.(open := OpenSet(x.open.labels, rest)))
      else if x.best.AtMost(top.f) then x
      else Rounds(t, goals, Round(t, goals, x, top.vertex, rest))
  }

  /** Follows predecessors back from v, for so many steps at most. */
  ghost function Trail(labels: map<int, Label>, v: int, steps: nat): seq<int>
    decreases steps
  {
    if steps == 0 || v !in labels then []
    else if labels[v].prev == NO_VERTEX then [v]
    else Trail(labels, labels[v].prev, steps - 1) + [v]
  }

  /** In a finished tree the trail is the rebuilt path. */
  lemma {:induction false} TrailIsPath(t: Task, s: Tree, v: int, steps: nat)
    requires TreeOk(t, s) && v in s.labels && Rank(s.order, v) < steps
    ensures Trail(s.labels, v, steps) == PathTo(t, s, v)
    decreases steps
  {
    hide Shape, Extend, Scan;
    assert LabelOk(t, s, v);
    if s.labels[v].prev != NO_VERTEX {
      TrailIsPath(t, s, s.labels[v].prev, steps - 1);
    }
  }
}

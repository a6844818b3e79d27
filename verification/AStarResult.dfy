/** What the finished loop means: the rebuilt path, its cost, and that nothing better was missed. */
module AStarResults {
  import opened Numbers
  import opened NavGraphs
  import opened SearchModel
  import opened PathCosts
  import opened Workspaces
  import opened AStarInvariants

  // ---- The best finished total ---------------------------------------------------------------

  /** Cost of ending at a closed goal. */
  ghost function EndingAt(t: Task, labels: map<int, Label>, u: int): Option<Leg> {
    if u !in labels then None
    else
      var l := labels[u];
      Finish(t, Walk(l.g, l.geo, l.inbound), u)
  }

  /** `best` is the least ending over the closed vertices, reached at `goal`; infinite when there is none. */
  ghost predicate BestOk(t: Task, s: Tree, best: Ext, goal: int) {
    && (if goal == NO_VERTEX then best == Inf
        else goal in s.order && EndingAt(t, s.labels, goal).Some? && best == Fin(EndingAt(t, s.labels, goal).value.cost))
    && (forall u :: u in s.order && EndingAt(t, s.labels, u).Some? ==> best.AtMost(Fin(EndingAt(t, s.labels, u).value.cost)))
  }

  /** Closing u and offering its own ending keeps `best` the least. */
  lemma FinishKeepsBest(t: Task, s: Tree, u: int, best: Ext, goal: int)
    requires BestOk(t, s, best, goal) && u != NO_VERTEX
    ensures var end, s' := EndingAt(t, s.labels, u), Close(t, s, u);
            if end.Some? && Fin(end.value.cost).Less(best) then BestOk(t, s', Fin(end.value.cost), u)
            else BestOk(t, s', best, goal)
  {
    hide Finish;
  }

  /** `best` only looks at the labels of closed vertices. */
  lemma BestSurvives(t: Task, s: Tree, s': Tree, best: Ext, goal: int)
    requires BestOk(t, s, best, goal) && s.order == s'.order
    requires forall w :: w in s.order ==> w in s.labels && w in s'.labels && s'.labels[w] == s.labels[w]
    ensures BestOk(t, s', best, goal)
  {
    hide Finish;
    assert forall w :: w in s.order ==> EndingAt(t, s.labels, w) == EndingAt(t, s'.labels, w);
  }

  // ---- The rebuilt path ----------------------------------------------------------------------

  /** Follows predecessors back to a source. */
  ghost function PathTo(t: Task, s: Tree, v: int): (p: seq<int>)
    requires TreeOk(t, s) && v in s.labels
    ensures p != [] && p[|p| - 1] == v
    decreases Rank(s.order, v)
  {
    assert LabelOk(t, s, v);
    var l := s.labels[v];
    if l.prev == NO_VERTEX then [v] else PathTo(t, s, l.prev) + [v]
  }

  /** Every vertex before the last on a rebuilt path was closed strictly earlier. */
  lemma {:induction false} PathToRanks(t: Task, s: Tree, v: int)
    requires TreeOk(t, s) && v in s.labels
    ensures var p := PathTo(t, s, v);
            && Simple(p)
            && (forall i :: 0 <= i < |p| - 1 ==> Rank(s.order, p[i]) < Rank(s.order, v))
    decreases Rank(s.order, v)
  {
    hide Scan, Extend, Passes, Simple;
    assert LabelOk(t, s, v);
    var l := s.labels[v];
    if l.prev == NO_VERTEX {
      assert Simple([v]) by { LoneIsSimple(v); }
    } else {
      PathToRanks(t, s, l.prev);
      var q := PathTo(t, s, l.prev);
      var p := PathTo(t, s, v);
      assert p == q + [v];
      forall i | 0 <= i < |p| - 1
        ensures Rank(s.order, p[i]) < Rank(s.order, v)
      {
        assert p[i] == q[i];
      }
      AppendIsSimple(q, v);
    }
  }

  lemma LoneIsSimple(v: int)
    ensures Simple([v])
  {
  }

  lemma AppendIsSimple(q: seq<int>, v: int)
    requires Simple(q) && v !in q
    ensures Simple(q + [v])
  {
  }

  /** In a finished tree a label is one step on from its predecessor's. */
  lemma LabelIsStep(t: Task, s: Tree, v: int)
    requires LabelOk(t, s, v) && RowDone(t, s)
    ensures var l := s.labels[v];
            if l.prev == NO_VERTEX then StartAt(t, v) == Some(Walk(l.g, l.geo, l.inbound)) || t.opts.nodeFilter.Blocks(v)
            else
              && l.prev in s.labels
              && var before := s.labels[l.prev];
                 StepTo(t, Some(Walk(before.g, before.geo, before.inbound)), l.prev, v) == Some(Walk(l.g, l.geo, l.inbound))
  {
    hide Scan, Price, TurnCost, Heading, Rank;
    var l := s.labels[v];
    if l.prev != NO_VERTEX {
      assert Upto(t, s, l.prev) == t.graph.EdgesEnd(l.prev);
    }
  }

  /** The rebuilt path is a walk, and the label carries exactly its cost, length and heading. */
  lemma {:induction false} PathToIsWalk(t: Task, s: Tree, v: int)
    requires TreeOk(t, s) && RowDone(t, s) && v in s.labels
    ensures var l := s.labels[v];
            WalkOf(t, PathTo(t, s, v)) == Some(Walk(l.g, l.geo, l.inbound))
    decreases Rank(s.order, v)
  {
    hide StepTo, StartAt, Scan, Extend;
    assert LabelOk(t, s, v);
    LabelIsStep(t, s, v);
    var l := s.labels[v];
    if l.prev != NO_VERTEX {
      PathToIsWalk(t, s, l.prev);
      var q := PathTo(t, s, l.prev);
      var p := PathTo(t, s, v);
      assert p == q + [v] && p[..|q|] == q;
    }
  }

  lemma PathToStep(t: Task, s: Tree, v: int)
    requires TreeOk(t, s) && v in s.labels
    ensures t.graph.Has(v)
    ensures var prev := s.labels[v].prev;
            if prev == NO_VERTEX then PathTo(t, s, v) == [v]
            else prev in s.labels && Rank(s.order, prev) < Rank(s.order, v) && PathTo(t, s, v) == PathTo(t, s, prev) + [v]
  {
    assert LabelOk(t, s, v);
  }

  // ---- Nothing is missed ---------------------------------------------------------------------

  /** Along any walk there is a labelled vertex, no dearer than the walk, that is open or the last. */
  lemma {:induction false} Frontier(t: Task, s: Tree, p: seq<int>) returns (j: nat)
    requires TreeOk(t, s) && RowDone(t, s) && SourcesIn(t, s) && EdgesIn(t, s)
    requires WalkOf(t, p).Some?
    ensures j < |p| && p[j] in s.labels && (p[j] !in s.order || j == |p| - 1)
    ensures WalkOf(t, p[..j + 1]).Some?
    ensures Exact(t) ==> s.labels[p[j]].g <= WalkOf(t, p[..j + 1]).value.cost
    decreases |p|
  {
    hide Scan, Hop, Price, TurnCost, Heading;
    var m := |p|;
    assert p[..m] == p;
    if m == 1 {
      return 0;
    }
    var q := p[..m - 1];
    j := Frontier(t, s, q);
    assert q[..j + 1] == p[..j + 1];
    WalkPrefix(t, p, j + 1);
    if p[j] in s.order {
      assert p[..j + 1] == q;
      LastStep(t, s, p);
      j := m - 1;
    }
  }

  /** A closed vertex has labelled the next vertex of any walk at no more than the walk's cost. */
  lemma LastStep(t: Task, s: Tree, p: seq<int>)
    requires TreeOk(t, s) && RowDone(t, s) && EdgesIn(t, s)
    requires |p| > 1 && WalkOf(t, p).Some? && p[|p| - 2] in s.order
    requires Exact(t) ==> s.labels[p[|p| - 2]].g <= WalkOf(t, p[..|p| - 1]).value.cost
    ensures p[|p| - 1] in s.labels
    ensures Exact(t) ==> s.labels[p[|p| - 1]].g <= WalkOf(t, p).value.cost
  {
    var u, v := p[|p| - 2], p[|p| - 1];
    var pick := Scan(t.graph, t.opts, u, v, t.graph.EdgesEnd(u));
    assert UsableFrom(t, u, pick.value) && pick.value < Upto(t, s, u);
  }

  /** The goal table only holds seeds of the heuristic's goals. */
  ghost predicate GoalsCovered(t: Task, goals: seq<SeededEndpoint>) {
    forall v :: t.GoalSeedOf(v) >= 0.0 ==> t.GoalSeedOf(v) == SeedAt(goals, v)
  }

  lemma GoalIsBounded(t: Task, goals: seq<SeededEndpoint>, v: int)
    requires GoalsCovered(t, goals) && t.GoalSeedOf(v) >= 0.0
    ensures GoalBound(t.graph, goals, v).Fin?
    ensures ChordIsLowerBound(t.graph) ==> GoalBound(t.graph, goals, v).AtMost(Fin(t.GoalSeedOf(v)))
  {
    var i := CheapestAt(goals, v);
    BoundAtGoal(t.graph, goals, i.value);
  }

  /** From any vertex of an accepted path, the bound never exceeds what is left to pay. */
  lemma {:induction false} BoundAlongPath(t: Task, goals: seq<SeededEndpoint>, p: seq<int>, j: nat)
    requires Exact(t) && GoalsCovered(t, goals) && Accepts(t, p) && j < |p|
    ensures WalkOf(t, p[..j + 1]).Some?
    ensures GoalBound(t.graph, goals, p[j]).Plus(WalkOf(t, p[..j + 1]).value.cost).AtMost(Fin(CostOf(t, p)))
    decreases |p| - j
  {
    hide Scan, Hop, Price, Heading, GoalBound, ChordIsLowerBound, PenaltiesNonNegative;
    WalkPrefix(t, p, j + 1);
    if j == |p| - 1 {
      assert p[..j + 1] == p;
      GoalIsBounded(t, goals, p[j]);
    } else {
      BoundAlongPath(t, goals, p, j + 1);
      assert p[..j + 2][..j + 1] == p[..j + 1];
      BoundAcrossHop(t, goals, p[j], p[j + 1]);
    }
  }

  /** A hop costs at least what the bound drops by. */
  lemma BoundAcrossHop(t: Task, goals: seq<SeededEndpoint>, u: int, v: int)
    requires Exact(t) && Hop(t.graph, t.opts, u, v).Some?
    ensures GoalBound(t.graph, goals, u).AtMost(GoalBound(t.graph, goals, v).Plus(Hop(t.graph, t.opts, u, v).value.cost))
  {
    var pick := Scan(t.graph, t.opts, u, v, t.graph.EdgesEnd(u));
    BoundIsConsistent(t.graph, goals, u, pick.value);
    PriceAtLeastDistance(t.graph, t.opts, pick.value);
  }

  /** Once no open entry can beat `best`, no accepted path does; and if any exists, `best` is finite. */
  lemma NothingBetter(t: Task, goals: seq<SeededEndpoint>, s: Tree, heap: seq<QueueNode>,
                      best: Ext, goal: int, p: seq<int>)
    requires Invariant(t, goals, s, heap) && RowDone(t, s) && BestOk(t, s, best, goal)
    requires forall q :: q in heap ==> best.AtMost(q.f)
    requires GoalsCovered(t, goals) && Accepts(t, p)
    ensures best.Fin?
    ensures Exact(t) ==> best.value <= CostOf(t, p)
  {
    var last := p[|p| - 1];
    var j := Frontier(t, s, p);
    if p[j] in s.order {
      assert p[..j + 1] == p;
      assert EndingAt(t, s.labels, last).Some?;
    } else {
      assert QueueNode(F(t, goals, s, p[j]), p[j]) in heap;
      GoalIsBounded(t, goals, last);
      BoundFiniteTogether(t.graph, goals, p[j], last);
      if Exact(t) {
        BoundAlongPath(t, goals, p, j);
      }
    }
  }
}

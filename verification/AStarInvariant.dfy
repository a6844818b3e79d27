/** What the A* loop keeps, step by step, over plain values: labels, closing order, scan position, heap. */
module AStarInvariants {
  import opened Numbers
  import opened NavGraphs
  import opened SearchModel
  import opened PathCosts
  import opened Workspaces

  /**
   * `order` lists the closed vertices as they were closed; the last one is being expanded and
   * its row has been scanned up to edge position `k`.
   */
  datatype Tree = Tree(labels: map<int, Label>, order: seq<int>, k: nat)

  /** Position of v in the closing order, or its length while v is open. */
  ghost function Rank(order: seq<int>, v: int): (r: nat)
    ensures r <= |order|
    ensures v in order ==> r < |order| && order[r] == v
    ensures v !in order ==> r == |order|
  {
    if order == [] then 0
    else if order[0] == v then 0
    else 1 + Rank(order[1..], v)
  }

  lemma {:induction false} RankAppend(order: seq<int>, u: int, v: int)
    ensures Rank(order + [u], v) ==
            if v in order then Rank(order, v) else if v == u then |order| else |order| + 1
  {
    if order != [] && order[0] != v {
      assert (order + [u])[1..] == order[1..] + [u];
      RankAppend(order[1..], u, v);
    }
  }

  ghost predicate Current(s: Tree, u: int) {
    s.order != [] && u == s.order[|s.order| - 1] && u in s.order
  }

  /** How far u's row has been scanned: up to k for the vertex being expanded, fully otherwise. */
  ghost function Upto(t: Task, s: Tree, u: int): nat {
    if Current(s, u) then s.k else t.graph.EdgesEnd(u)
  }

  ghost predicate Shape(t: Task, s: Tree) {
    && Simple(s.order)
    && (forall v :: v in s.labels ==> t.graph.Has(v) && !t.opts.nodeFilter.Blocks(v))
    && (forall u :: u in s.order ==> u in s.labels)
    && (s.order != [] ==>
          var u := s.order[|s.order| - 1];
          t.graph.Has(u) && t.graph.EdgesBegin(u) <= s.k <= t.graph.EdgesEnd(u))
  }

  /** The label an edge from u gives its target. */
  ghost function Extend(t: Task, from: Label, u: int, i: nat): Label {
    var outbound := Heading(t, u, t.graph.Target(i));
    var price := Price(t.graph, t.opts, i);
    if price.None? then from
    else Label(from.g + price.value + TurnCost(t.opts, from.inbound, outbound),
               from.geo + t.graph.edges[i].distance, u, outbound)
  }

  /** v's label is its seed, or extends its closed predecessor's by the edge the scan has picked. */
  ghost predicate LabelOk(t: Task, s: Tree, v: int) {
    && v in s.labels
    && var l := s.labels[v];
       if l.prev == NO_VERTEX then
         t.SeedOf(v) >= 0.0 && l == Label(t.SeedOf(v), t.SeedOf(v), NO_VERTEX, t.SourceBearingOf(v))
       else
         && l.prev in s.order && l.prev in s.labels && Rank(s.order, l.prev) < Rank(s.order, v)
         && Passes(t, l.prev, v)
         && var pick := Scan(t.graph, t.opts, l.prev, v, Upto(t, s, l.prev));
            pick.Some? && l == Extend(t, s.labels[l.prev], l.prev, pick.value)
  }

  ghost predicate TreeOk(t: Task, s: Tree) {
    Shape(t, s) && forall v :: v in s.labels ==> LabelOk(t, s, v)
  }

  ghost predicate SourcesIn(t: Task, s: Tree) {
    forall v :: t.SeedOf(v) >= 0.0 && !t.opts.nodeFilter.Blocks(v) ==>
      v in s.labels && s.labels[v].g <= t.SeedOf(v)
  }

  ghost predicate UsableFrom(t: Task, u: int, i: nat) {
    && t.graph.Has(u)
    && t.graph.EdgesBegin(u) <= i < t.graph.EdgesEnd(u)
    && Passes(t, u, t.graph.Target(i)) && Price(t.graph, t.opts, i).Some?
  }

  /** Every scanned usable edge of a closed vertex has labelled its target, at no more than its price. */
  ghost predicate EdgesIn(t: Task, s: Tree) {
    forall u, i: nat {:trigger UsableFrom(t, u, i)} ::
      u in s.order && i < Upto(t, s, u) && UsableFrom(t, u, i) ==>
        var v := t.graph.Target(i);
        && v in s.labels && u in s.labels
        && (Exact(t) ==> s.labels[v].g <= s.labels[u].g + Price(t.graph, t.opts, i).value)
  }

  /**
   * A closed vertex has labelled the target of each of its scanned edges at no more than that edge gives it, turn
   * included, unless the target was closed before it.
   */
  ghost predicate LeastIn(t: Task, s: Tree) {
    forall u, i: nat {:trigger UsableFrom(t, u, i)} ::
      u in s.order && i < Upto(t, s, u) && UsableFrom(t, u, i) && Rank(s.order, u) < Rank(s.order, t.graph.Target(i)) ==>
        var v := t.graph.Target(i);
        v in s.labels && u in s.labels && s.labels[v].g <= Extend(t, s.labels[u], u, i).g
  }

  ghost function F(t: Task, goals: seq<SeededEndpoint>, s: Tree, v: int): Ext {
    if v in s.labels then GoalBound(t.graph, goals, v).Plus(s.labels[v].g) else Inf
  }

  /** Every open labelled vertex waits in the heap under its current f. */
  ghost predicate HeapCovers(t: Task, goals: seq<SeededEndpoint>, s: Tree, heap: seq<QueueNode>) {
    forall v :: v in s.labels && v !in s.order ==> QueueNode(F(t, goals, s, v), v) in heap
  }

  /** No heap entry promises more than its vertex's label. */
  ghost predicate HeapAbove(t: Task, goals: seq<SeededEndpoint>, s: Tree, heap: seq<QueueNode>) {
    forall q :: q in heap ==> q.vertex in s.labels && F(t, goals, s, q.vertex).AtMost(q.f)
  }

  /** Closed vertices have the least f values, and the last closed one the largest of those. */
  ghost predicate Settled(t: Task, goals: seq<SeededEndpoint>, s: Tree, heap: seq<QueueNode>) {
    forall u :: u in s.order ==>
      && (forall q :: q in heap ==> F(t, goals, s, u).AtMost(q.f))
      && F(t, goals, s, u).AtMost(F(t, goals, s, s.order[|s.order| - 1]))
  }

  ghost predicate Exact(t: Task) {
    t.Plain() && ChordIsLowerBound(t.graph)
  }

  ghost predicate Invariant(t: Task, goals: seq<SeededEndpoint>, s: Tree, heap: seq<QueueNode>) {
    && TreeOk(t, s) && SourcesIn(t, s) && EdgesIn(t, s) && LeastIn(t, s)
    && HeapCovers(t, goals, s, heap) && HeapAbove(t, goals, s, heap)
    && (Exact(t) ==> Settled(t, goals, s, heap))
  }

  /** The row being scanned, if any, is finished. */
  ghost predicate RowDone(t: Task, s: Tree) {
    s.order != [] ==> var u := s.order[|s.order| - 1]; u in s.order && s.k == t.graph.EdgesEnd(u)
  }

  // ---- Closing a vertex ----------------------------------------------------------------------

  ghost function Close(t: Task, s: Tree, u: int): Tree {
    Tree(s.labels, s.order + [u], t.graph.EdgesBegin(u))
  }

  lemma CloseKeepsTree(t: Task, s: Tree, u: int)
    requires TreeOk(t, s) && RowDone(t, s) && u in s.labels && u !in s.order
    ensures TreeOk(t, Close(t, s, u))
  {
    var s' := Close(t, s, u);
    assert Shape(t, s');
    forall v | v in s'.labels
      ensures LabelOk(t, s', v)
    {
      assert LabelOk(t, s, v);
      RankAppend(s.order, u, v);
      var p := s.labels[v].prev;
      if p != NO_VERTEX {
        RankAppend(s.order, u, p);
        assert Upto(t, s', p) == Upto(t, s, p);
      }
    }
  }

  lemma CloseKeepsEdges(t: Task, s: Tree, u: int)
    requires Shape(t, s) && u in s.labels && u !in s.order
    requires Shape(t, Close(t, s, u)) && RowDone(t, s) && EdgesIn(t, s)
    ensures EdgesIn(t, Close(t, s, u))
  {
    var s' := Close(t, s, u);
    assert s'.order[|s'.order| - 1] == u;
    forall w, i: nat | w in s'.order && i < Upto(t, s', w) && UsableFrom(t, w, i)
      ensures var v := t.graph.Target(i);
              && v in s.labels
              && (Exact(t) ==> s.labels[v].g <= s.labels[w].g + Price(t.graph, t.opts, i).value)
    {
      assert w != u;
      assert w in s.order && i < Upto(t, s, w);
    }
  }

  lemma CloseKeepsLeast(t: Task, s: Tree, u: int)
    requires Shape(t, s) && u in s.labels && u !in s.order
    requires Shape(t, Close(t, s, u)) && RowDone(t, s) && LeastIn(t, s)
    ensures LeastIn(t, Close(t, s, u))
  {
    var s' := Close(t, s, u);
    forall w, i: nat | w in s'.order && i < Upto(t, s', w) && UsableFrom(t, w, i)
                       && Rank(s'.order, w) < Rank(s'.order, t.graph.Target(i))
      ensures var v := t.graph.Target(i); v in s.labels && w in s.labels && s.labels[v].g <= Extend(t, s.labels[w], w, i).g
    {
      assert w != u;
      assert w in s.order && i < Upto(t, s, w);
      RankAppend(s.order, u, w);
      RankAppend(s.order, u, t.graph.Target(i));
    }
  }

  /** Popping an open vertex and closing it. */
  lemma CloseKeeps(t: Task, goals: seq<SeededEndpoint>, s: Tree, heap: seq<QueueNode>,
                   top: QueueNode, rest: seq<QueueNode>)
    requires Invariant(t, goals, s, heap) && RowDone(t, s)
    requires top in heap && top.vertex !in s.order
    requires forall q :: q in heap ==> top.f.AtMost(q.f) && (q == top || q in rest)
    requires forall q :: q in rest ==> q in heap
    ensures top.vertex in s.labels && top.f == F(t, goals, s, top.vertex)
    ensures Invariant(t, goals, Close(t, s, top.vertex), rest)
  {
    var u := top.vertex;
    var s' := Close(t, s, u);
    CloseKeepsTree(t, s, u);
    CloseKeepsEdges(t, s, u);
    CloseKeepsLeast(t, s, u);
    assert QueueNode(F(t, goals, s, u), u) in heap;
    assert top.f == F(t, goals, s, u);
    assert s'.order[|s'.order| - 1] == u;
    if Exact(t) {
      forall w | w in s'.order
        ensures forall q :: q in rest ==> F(t, goals, s', w).AtMost(q.f)
        ensures F(t, goals, s', w).AtMost(F(t, goals, s', u))
      {
      }
    }
  }

  /** Popping a stale entry of an already closed vertex. */
  lemma StaleKeeps(t: Task, goals: seq<SeededEndpoint>, s: Tree, heap: seq<QueueNode>,
                   top: QueueNode, rest: seq<QueueNode>)
    requires Invariant(t, goals, s, heap) && top.vertex in s.order
    requires forall q :: q in heap ==> q == top || q in rest
    requires forall q :: q in rest ==> q in heap
    ensures Invariant(t, goals, s, rest)
  {
  }

  // ---- Scanning one edge of the row ----------------------------------------------------------

  /** The row position moves past an edge that does not improve its target. */
  ghost function Pass(s: Tree): Tree {
    s.(k := s.k + 1)
  }

  /** The edge at position k relabels its target. */
  ghost function Relabel(t: Task, s: Tree, u: int): Tree
    requires u in s.labels
  {
    Tree(s.labels[t.graph.Target(s.k) := Extend(t, s.labels[u], u, s.k)], s.order, s.k + 1)
  }

  ghost predicate AtEdge(t: Task, s: Tree, u: int) {
    Current(s, u) && u in s.labels && s.k < t.graph.EdgesEnd(u)
  }

  /** Why an edge may be passed over without touching its target. */
  ghost predicate Passable(t: Task, s: Tree, u: int)
    requires AtEdge(t, s, u)
  {
    var v := t.graph.Target(s.k);
    || v in s.order
    || !UsableFrom(t, u, s.k)
    || (v in s.labels && s.labels[v].g <= Extend(t, s.labels[u], u, s.k).g)
  }

  lemma PassKeepsLabel(t: Task, s: Tree, u: int, v: int)
    requires Shape(t, s) && AtEdge(t, s, u) && Passable(t, s, u) && Shape(t, Pass(s))
    requires v in s.labels && LabelOk(t, s, v)
    ensures LabelOk(t, Pass(s), v)
  {
    if s.labels[v].prev == u && t.graph.Target(s.k) == v {
      assert Rank(s.order, u) < Rank(s.order, v);
      LastRank(s.order);
      assert v !in s.order;
    }
  }

  lemma {:induction false} LastRank(order: seq<int>)
    requires Simple(order) && order != []
    ensures Rank(order, order[|order| - 1]) == |order| - 1
  {
    var r := Rank(order, order[|order| - 1]);
    assert order[r] == order[|order| - 1];
  }

  lemma PassKeepsTree(t: Task, s: Tree, u: int)
    requires TreeOk(t, s) && AtEdge(t, s, u) && Passable(t, s, u)
    ensures TreeOk(t, Pass(s))
  {
    assert Shape(t, Pass(s));
    forall v | v in s.labels
      ensures LabelOk(t, Pass(s), v)
    {
      PassKeepsLabel(t, s, u, v);
    }
  }

  /** Every label the row's edge at k could improve is already that good. */
  ghost predicate NothingToGain(t: Task, s: Tree, u: int)
    requires AtEdge(t, s, u)
  {
    UsableFrom(t, u, s.k) ==>
      var v := t.graph.Target(s.k);
      && v in s.labels
      && (Exact(t) ==> s.labels[v].g <= s.labels[u].g + Price(t.graph, t.opts, s.k).value)
  }

  lemma PassKeepsEdges(t: Task, s: Tree, u: int)
    requires Shape(t, s) && EdgesIn(t, s) && AtEdge(t, s, u) && NothingToGain(t, s, u)
    ensures Shape(t, Pass(s)) && EdgesIn(t, Pass(s))
  {
    var s' := Pass(s);
    forall w, i: nat | w in s'.order && i < Upto(t, s', w) && UsableFrom(t, w, i)
      ensures var v := t.graph.Target(i);
              && v in s.labels
              && (Exact(t) ==> s.labels[v].g <= s.labels[w].g + Price(t.graph, t.opts, i).value)
    {
      if w != u || i != s.k {
        assert i < Upto(t, s, w);
      }
    }
  }

  lemma PassKeepsLeast(t: Task, s: Tree, u: int)
    requires Shape(t, s) && LeastIn(t, s) && AtEdge(t, s, u) && Passable(t, s, u)
    ensures Shape(t, Pass(s)) && LeastIn(t, Pass(s))
  {
    var s' := Pass(s);
    LastRank(s.order);
    forall w, i: nat | w in s'.order && i < Upto(t, s', w) && UsableFrom(t, w, i)
                       && Rank(s'.order, w) < Rank(s'.order, t.graph.Target(i))
      ensures var v := t.graph.Target(i); v in s.labels && w in s.labels && s.labels[v].g <= Extend(t, s.labels[w], w, i).g
    {
      if w != u || i != s.k {
        assert i < Upto(t, s, w);
      }
    }
  }

  /** With a consistent bound, a closed target was already labelled at no more than this edge offers. */
  lemma SettledTarget(t: Task, goals: seq<SeededEndpoint>, s: Tree, heap: seq<QueueNode>, u: int, i: nat)
    requires Invariant(t, goals, s, heap) && Exact(t) && Current(s, u) && UsableFrom(t, u, i)
    requires t.graph.Target(i) in s.order && F(t, goals, s, u).Fin?
    ensures s.labels[t.graph.Target(i)].g <= s.labels[u].g + Price(t.graph, t.opts, i).value
  {
    var v := t.graph.Target(i);
    BoundFiniteTogether(t.graph, goals, u, v);
    BoundIsConsistent(t.graph, goals, u, i);
    PriceAtLeastDistance(t.graph, t.opts, i);
    assert F(t, goals, s, v).AtMost(F(t, goals, s, u));
  }

  lemma PassKeepsHeap(t: Task, goals: seq<SeededEndpoint>, s: Tree, heap: seq<QueueNode>, u: int)
    requires Shape(t, s) && AtEdge(t, s, u) && Shape(t, Pass(s))
    requires SourcesIn(t, s) && HeapCovers(t, goals, s, heap) && HeapAbove(t, goals, s, heap)
    requires Exact(t) ==> Settled(t, goals, s, heap)
    ensures SourcesIn(t, Pass(s)) && HeapCovers(t, goals, Pass(s), heap) && HeapAbove(t, goals, Pass(s), heap)
    ensures Exact(t) ==> Settled(t, goals, Pass(s), heap)
  {
    assert forall v :: v in s.labels && t.graph.Has(v) ==> F(t, goals, Pass(s), v) == F(t, goals, s, v);
  }

  lemma PassGainsNothing(t: Task, goals: seq<SeededEndpoint>, s: Tree, heap: seq<QueueNode>, u: int)
    requires Invariant(t, goals, s, heap) && AtEdge(t, s, u) && Passable(t, s, u)
    requires F(t, goals, s, u).Fin?
    ensures NothingToGain(t, s, u)
  {
    if UsableFrom(t, u, s.k) && t.graph.Target(s.k) in s.order && Exact(t) {
      SettledTarget(t, goals, s, heap, u, s.k);
    }
  }

  lemma PassKeeps(t: Task, goals: seq<SeededEndpoint>, s: Tree, heap: seq<QueueNode>, u: int)
    requires Invariant(t, goals, s, heap) && AtEdge(t, s, u) && Passable(t, s, u)
    requires F(t, goals, s, u).Fin?
    ensures Invariant(t, goals, Pass(s), heap)
  {
    assert TreeOk(t, Pass(s)) by { PassKeepsTree(t, s, u); }
    assert LeastIn(t, Pass(s)) by { PassKeepsLeast(t, s, u); }
    assert EdgesIn(t, Pass(s)) by {
      PassGainsNothing(t, goals, s, heap, u);
      PassKeepsEdges(t, s, u);
    }
    PassKeepsHeap(t, goals, s, heap, u);
  }

  /** The edge at k strictly improves an open target. */
  ghost predicate Improves(t: Task, s: Tree, u: int)
    requires AtEdge(t, s, u)
  {
    && UsableFrom(t, u, s.k)
    && var v := t.graph.Target(s.k);
       && v !in s.order
       && (v in s.labels ==> Extend(t, s.labels[u], u, s.k).g < s.labels[v].g)
  }

  lemma RelabelKeepsShape(t: Task, s: Tree, u: int)
    requires Shape(t, s) && AtEdge(t, s, u) && Improves(t, s, u)
    ensures Shape(t, Relabel(t, s, u))
  {
  }

  /** The improving edge is the one a longer scan of the row picks. */
  lemma RelabelTakesPick(t: Task, s: Tree, u: int)
    requires Shape(t, s) && LeastIn(t, s) && AtEdge(t, s, u) && Improves(t, s, u)
    ensures Scan(t.graph, t.opts, u, t.graph.Target(s.k), s.k + 1) == Some(s.k)
  {
    var v := t.graph.Target(s.k);
    var pick := Scan(t.graph, t.opts, u, v, s.k);
    LastRank(s.order);
    if pick.Some? {
      assert UsableFrom(t, u, pick.value);
    }
  }

  lemma RelabelGivesLabel(t: Task, s: Tree, u: int)
    requires Shape(t, s) && LeastIn(t, s) && AtEdge(t, s, u) && Improves(t, s, u)
    requires Shape(t, Relabel(t, s, u))
    ensures LabelOk(t, Relabel(t, s, u), t.graph.Target(s.k))
  {
    RelabelTakesPick(t, s, u);
    LastRank(s.order);
  }

  lemma RelabelKeepsLabel(t: Task, s: Tree, u: int, v: int)
    requires Shape(t, s) && AtEdge(t, s, u) && Improves(t, s, u) && Shape(t, Relabel(t, s, u))
    requires v in s.labels && v != t.graph.Target(s.k) && LabelOk(t, s, v)
    ensures LabelOk(t, Relabel(t, s, u), v)
  {
    hide Price, TurnCost, Heading;
  }

  lemma RelabelKeepsTree(t: Task, s: Tree, u: int)
    requires TreeOk(t, s) && LeastIn(t, s) && AtEdge(t, s, u) && Improves(t, s, u)
    ensures TreeOk(t, Relabel(t, s, u))
  {
    RelabelKeepsShape(t, s, u);
    var s' := Relabel(t, s, u);
    forall v | v in s'.labels
      ensures LabelOk(t, s', v)
    {
      if v == t.graph.Target(s.k) {
        RelabelGivesLabel(t, s, u);
      } else {
        RelabelKeepsLabel(t, s, u, v);
      }
    }
  }

  lemma RelabelKeepsEdges(t: Task, s: Tree, u: int)
    requires Shape(t, s) && EdgesIn(t, s) && AtEdge(t, s, u) && Improves(t, s, u)
    requires Shape(t, Relabel(t, s, u))
    ensures EdgesIn(t, Relabel(t, s, u))
  {
    var s' := Relabel(t, s, u);
    forall w, i: nat | w in s'.order && i < Upto(t, s', w) && UsableFrom(t, w, i)
      ensures var v := t.graph.Target(i);
              && v in s'.labels
              && (Exact(t) ==> s'.labels[v].g <= s'.labels[w].g + Price(t.graph, t.opts, i).value)
    {
      if w != u || i != s.k {
        assert i < Upto(t, s, w);
      }
    }
  }

  lemma RelabelKeepsLeast(t: Task, s: Tree, u: int)
    requires Shape(t, s) && LeastIn(t, s) && AtEdge(t, s, u) && Improves(t, s, u)
    requires Shape(t, Relabel(t, s, u))
    ensures LeastIn(t, Relabel(t, s, u))
  {
    var s' := Relabel(t, s, u);
    forall w, i: nat | w in s'.order && i < Upto(t, s', w) && UsableFrom(t, w, i)
                       && Rank(s'.order, w) < Rank(s'.order, t.graph.Target(i))
      ensures var v := t.graph.Target(i); v in s'.labels && w in s'.labels && s'.labels[v].g <= Extend(t, s'.labels[w], w, i).g
    {
      assert s'.labels[w] == s.labels[w];
      if w != u || i != s.k {
        assert i < Upto(t, s, w);
      }
    }
  }

  lemma RelabelKeepsHeap(t: Task, goals: seq<SeededEndpoint>, s: Tree, heap: seq<QueueNode>, u: int, q: QueueNode)
    requires Shape(t, s) && AtEdge(t, s, u) && Improves(t, s, u) && Shape(t, Relabel(t, s, u))
    requires q == QueueNode(F(t, goals, Relabel(t, s, u), t.graph.Target(s.k)), t.graph.Target(s.k))
    requires HeapCovers(t, goals, s, heap) && HeapAbove(t, goals, s, heap)
    ensures HeapCovers(t, goals, Relabel(t, s, u), heap + [q])
    ensures HeapAbove(t, goals, Relabel(t, s, u), heap + [q])
  {
    var s' := Relabel(t, s, u);
    forall v | v in s'.labels && v !in s'.order
      ensures QueueNode(F(t, goals, s', v), v) in heap + [q]
    {
      if v != q.vertex {
        assert QueueNode(F(t, goals, s, v), v) in heap;
      }
    }
    forall p | p in heap + [q]
      ensures p.vertex in s'.labels && F(t, goals, s', p.vertex).AtMost(p.f)
    {
      if p != q {
        assert p in heap;
      }
    }
  }

  lemma RelabelKeepsSettled(t: Task, goals: seq<SeededEndpoint>, s: Tree, heap: seq<QueueNode>, u: int, q: QueueNode)
    requires Shape(t, s) && AtEdge(t, s, u) && Improves(t, s, u) && Shape(t, Relabel(t, s, u))
    requires q == QueueNode(F(t, goals, Relabel(t, s, u), t.graph.Target(s.k)), t.graph.Target(s.k))
    requires Exact(t) && Settled(t, goals, s, heap) && F(t, goals, s, u).Fin?
    ensures Settled(t, goals, Relabel(t, s, u), heap + [q])
  {
    var s' := Relabel(t, s, u);
    BoundFiniteTogether(t.graph, goals, u, q.vertex);
    BoundIsConsistent(t.graph, goals, u, s.k);
    PriceAtLeastDistance(t.graph, t.opts, s.k);
    forall w | w in s'.order
      ensures forall p :: p in heap + [q] ==> F(t, goals, s', w).AtMost(p.f)
      ensures F(t, goals, s', w).AtMost(F(t, goals, s', u))
    {
      assert F(t, goals, s', w) == F(t, goals, s, w);
    }
  }

  lemma RelabelKeeps(t: Task, goals: seq<SeededEndpoint>, s: Tree, heap: seq<QueueNode>, u: int, q: QueueNode)
    requires Invariant(t, goals, s, heap) && AtEdge(t, s, u) && Improves(t, s, u)
    requires F(t, goals, s, u).Fin?
    requires q == QueueNode(GoalBound(t.graph, goals, t.graph.Target(s.k)).Plus(Extend(t, s.labels[u], u, s.k).g),
                            t.graph.Target(s.k))
    ensures Invariant(t, goals, Relabel(t, s, u), heap + [q])
  {
    RelabelKeepsTree(t, s, u);
    RelabelKeepsEdges(t, s, u);
    RelabelKeepsLeast(t, s, u);
    RelabelKeepsHeap(t, goals, s, heap, u, q);
    if Exact(t) {
      RelabelKeepsSettled(t, goals, s, heap, u, q);
    }
  }
}

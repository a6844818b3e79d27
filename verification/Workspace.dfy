/** The search's reusable scratch: stamped per-vertex slots, the open-set heap, and the memoised heuristic. */
module Workspaces {
  import opened Numbers
  import opened NavGraphs
  import opened SearchModel

  /** What a live slot holds for a vertex. */
  datatype Label = Label(g: real, geo: real, prev: int, inbound: real)

  datatype QueueNode = QueueNode(f: Ext, vertex: int)

  const GENERATIONS := 0x1_0000_0000

  /**
   * A slot is live only when its stamp is the current generation, so advancing the generation
   * clears every slot at once. `Labels` and `Closed` are the state a search sees.
   */
  class SearchWorkspace {
    var g: seq<real>
    var geo: seq<real>
    var prev: seq<int>
    var inbound: seq<real>
    var stamp: seq<nat>
    var closedStamp: seq<nat>
    var heap: seq<QueueNode>
    var generation: nat

    ghost predicate Valid()
      reads `g, `geo, `prev, `inbound, `stamp, `closedStamp, `generation
    {
      && |g| == |geo| == |prev| == |inbound| == |stamp| == |closedStamp|
      && generation < GENERATIONS
      && (forall v :: 0 <= v < |stamp| ==> stamp[v] <= generation)
      && (forall v :: 0 <= v < |closedStamp| ==> closedStamp[v] <= generation)
    }

    ghost function Labels(): map<int, Label>
      requires Valid()
      reads `g, `geo, `prev, `inbound, `stamp, `closedStamp, `generation
    {
      map v | 0 <= v < |stamp| && stamp[v] == generation :: Label(g[v], geo[v], prev[v], inbound[v])
    }

    ghost function Closed(): set<int>
      requires Valid()
      reads `g, `geo, `prev, `inbound, `stamp, `closedStamp, `generation
    {
      set v | 0 <= v < |closedStamp| && closedStamp[v] == generation
    }

    function Slots(): nat
      reads `stamp
    {
      |stamp|
    }

    constructor ()
      ensures Valid() && Slots() == 0 && generation == 0
    {
      g, geo, prev, inbound, stamp, closedStamp, heap := [], [], [], [], [], [], [];
      generation := 0;
    }

    /** Grows the arrays to n slots; stamp 0 never matches a generation a search runs in. */
    method Reset(n: nat)
      requires Valid()
      modifies this
      ensures Valid() && Slots() >= n && Slots() >= old(Slots())
      ensures generation == old(generation)
    {
      if |stamp| < n {
        var extra := n - |stamp|;
        g := g + seq(extra, _ => 0.0);
        geo := geo + seq(extra, _ => 0.0);
        prev := prev + seq(extra, _ => 0);
        inbound := inbound + seq(extra, _ => 0.0);
        stamp := stamp + seq(extra, _ => 0);
        closedStamp := closedStamp + seq(extra, _ => 0);
      }
    }

    /** Starts a search: whatever earlier searches left, every slot reads as never written. */
    method NextGeneration()
      requires Valid() && generation + 1 < GENERATIONS
      modifies `generation
      ensures Valid() && generation == old(generation) + 1
      ensures Labels() == map[] && Closed() == {}
    {
      generation := (generation + 1) % GENERATIONS;
    }

    method ClearHeap()
      modifies `heap
      ensures heap == []
    {
      heap := [];
    }

    method G(v: int) returns (cost: Ext)
      requires Valid() && 0 <= v < Slots()
      ensures cost == if v in Labels() then Fin(Labels()[v].g) else Inf
    {
      cost := if stamp[v] == generation then Fin(g[v]) else Inf;
    }

    method Geo(v: int) returns (distance: real)
      requires Valid() && 0 <= v < Slots()
      ensures distance == if v in Labels() then Labels()[v].geo else 0.0
    {
      distance := if stamp[v] == generation then geo[v] else 0.0;
    }

    method Prev(v: int) returns (vertex: int)
      requires Valid() && 0 <= v < Slots()
      ensures vertex == if v in Labels() then Labels()[v].prev else NO_VERTEX
    {
      vertex := if stamp[v] == generation then prev[v] else NO_VERTEX;
    }

    method Inbound(v: int) returns (heading: real)
      requires Valid() && 0 <= v < Slots()
      ensures heading == if v in Labels() then Labels()[v].inbound else NO_BEARING
    {
      heading := if stamp[v] == generation then inbound[v] else NO_BEARING;
    }

    method IsClosed(v: int) returns (closed: bool)
      requires Valid() && 0 <= v < Slots()
      ensures closed <==> v in Closed()
    {
      closed := closedStamp[v] == generation;
    }

    /** Brings a slot into the current generation, clearing stale state once. */
    method Touch(v: int)
      requires Valid() && 0 <= v < Slots()
      modifies `g, `geo, `prev, `inbound, `stamp
      ensures Valid() && Slots() == old(Slots())
      ensures v in Labels() && Closed() == old(Closed())
      ensures forall w :: w != v ==> (w in Labels() <==> w in old(Labels()))
      ensures forall w :: w in old(Labels()) ==> Labels()[w] == old(Labels())[w]
    {
      if stamp[v] != generation {
        stamp := stamp[v := generation];
        g := g[v := 0.0];
        geo := geo[v := 0.0];
        prev := prev[v := NO_VERTEX];
        inbound := inbound[v := NO_BEARING];
      }
    }

    /** Records a better way to reach v. */
    method Relax(v: int, entry: Label)
      requires Valid() && 0 <= v < Slots()
      modifies `g, `geo, `prev, `inbound, `stamp
      ensures Valid() && Slots() == old(Slots())
      ensures Labels() == old(Labels())[v := entry] && Closed() == old(Closed())
    {
      Touch(v);
      g := g[v := entry.g];
      geo := geo[v := entry.geo];
      prev := prev[v := entry.prev];
      inbound := inbound[v := entry.inbound];
    }

    method MarkClosed(v: int)
      requires Valid() && 0 <= v < Slots()
      modifies `closedStamp
      ensures Valid() && Labels() == old(Labels()) && Closed() == old(Closed()) + {v}
    {
      closedStamp := closedStamp[v := generation];
    }

    method PushHeap(q: QueueNode)
      modifies `heap
      ensures heap == old(heap) + [q]
    {
      heap := heap + [q];
    }

    /** Takes the first entry with the least f off the open set. */
    method PopHeap() returns (top: QueueNode)
      requires heap != []
      modifies `heap
      ensures var i := FirstLeast(old(heap)); top == old(heap)[i] && heap == Without(old(heap), i)
    {
      var least := 0;
      FirstLeastStarts(heap);
      for i := 1 to |heap|
        invariant 0 <= least < i && heap == old(heap)
        invariant least == FirstLeast(heap[..i])
      {
        FirstLeastGrows(heap, i);
        if heap[i].f.Less(heap[least].f) {
          least := i;
        }
      }
      assert heap[..|heap|] == heap;
      top := heap[least];
      heap := heap[..least] + heap[least + 1..];
    }
  }

  /** The position of the first entry with the least f. */
  ghost function FirstLeast(heap: seq<QueueNode>): (i: nat)
    ensures heap != [] ==> i < |heap|
  {
    if |heap| <= 1 then 0
    else
      var before := FirstLeast(heap[..|heap| - 1]);
      if heap[|heap| - 1].f.Less(heap[before].f) then |heap| - 1 else before
  }

  ghost function Without(heap: seq<QueueNode>, i: nat): (rest: seq<QueueNode>)
    ensures i < |heap| ==> |rest| == |heap| - 1
  {
    if i < |heap| then heap[..i] + heap[i + 1..] else heap
  }

  lemma FirstLeastStarts(heap: seq<QueueNode>)
    requires heap != []
    ensures FirstLeast(heap[..1]) == 0
  {
  }

  lemma FirstLeastGrows(heap: seq<QueueNode>, i: nat)
    requires 0 < i < |heap|
    ensures var before := FirstLeast(heap[..i]);
            FirstLeast(heap[..i + 1]) == if heap[i].f.Less(heap[before].f) then i else before
  {
    assert heap[..i + 1][..i] == heap[..i];
  }

  /** No entry is less than the first least one, and every entry before it is greater. */
  lemma {:induction false} FirstLeastIsLeast(heap: seq<QueueNode>, j: nat)
    requires j < |heap|
    ensures heap[FirstLeast(heap)].f.AtMost(heap[j].f)
    ensures j < FirstLeast(heap) ==> heap[FirstLeast(heap)].f.Less(heap[j].f)
    decreases |heap|
  {
    var n := |heap| - 1;
    if n > 0 {
      var front := heap[..n];
      FirstLeastIsLeast(front, FirstLeast(front));
      if j < n {
        FirstLeastIsLeast(front, j);
      }
    }
  }

  /** Popping loses nothing but the popped entry. */
  lemma PoppedIsLeast(heap: seq<QueueNode>)
    requires heap != []
    ensures var i := FirstLeast(heap); var top, rest := heap[i], Without(heap, i);
            && (forall q :: q in heap ==> top.f.AtMost(q.f) && (q == top || q in rest))
            && (forall q :: q in rest ==> q in heap)
            && multiset(heap) == multiset(rest) + multiset{top}
  {
    var i := FirstLeast(heap);
    var top, rest := heap[i], Without(heap, i);
    assert heap == heap[..i] + [top] + heap[i + 1..];
    forall q | q in heap
      ensures top.f.AtMost(q.f) && (q == top || q in rest)
    {
      var j :| 0 <= j < |heap| && heap[j] == q;
      FirstLeastIsLeast(heap, j);
      if j < i {
        assert rest[j] == q;
      } else if j > i {
        assert rest[j - 1] == q;
      }
    }
  }

  // ---- The heuristic -------------------------------------------------------------------------

  /** Lower bound on finishing from v: least chord to a goal plus that goal's seed, over the first goals. */
  ghost function GoalBound(g: NavGraph, goals: seq<SeededEndpoint>, v: int): Ext {
    if goals == [] then Inf
    else
      var before := GoalBound(g, goals[..|goals| - 1], v);
      var goal := goals[|goals| - 1];
      if !g.Has(goal.vertex) then before
      else
        var h := Fin(g.Chord(v, goal.vertex) + goal.cost);
        if h.Less(before) then h else before
  }

  /** The bound is no more than any goal on the graph gives, and some goal gives it, unless there is none. */
  lemma {:induction false} BoundIsLeast(g: NavGraph, goals: seq<SeededEndpoint>, v: int)
    ensures forall e :: e in goals && g.Has(e.vertex) ==> GoalBound(g, goals, v).AtMost(Fin(g.Chord(v, e.vertex) + e.cost))
    ensures GoalBound(g, goals, v).Fin? ==>
              exists e :: e in goals && g.Has(e.vertex) && GoalBound(g, goals, v) == Fin(g.Chord(v, e.vertex) + e.cost)
  {
    if goals != [] {
      var front, last := goals[..|goals| - 1], goals[|goals| - 1];
      assert goals == front + [last];
      BoundIsLeast(g, front, v);
    }
  }

  /** What the chord must satisfy to be a lower bound: a metric, no longer than any edge it spans. */
  ghost predicate ChordIsLowerBound(g: NavGraph) {
    && (forall a, b, c :: g.Has(a) && g.Has(b) && g.Has(c) ==> g.Chord(a, c) <= g.Chord(a, b) + g.Chord(b, c))
    && (forall a :: g.Has(a) ==> g.Chord(a, a) == 0.0)
    && (forall u, i: nat {:trigger g.Chord(u, g.Target(i))} ::
          g.Has(u) && g.EdgesBegin(u) <= i < g.EdgesEnd(u) ==> g.Chord(u, g.Target(i)) <= g.edges[i].distance)
  }

  /** Crossing an edge never lowers the bound by more than the edge's length. */
  lemma {:induction false} BoundIsConsistent(g: NavGraph, goals: seq<SeededEndpoint>, u: int, i: nat)
    requires ChordIsLowerBound(g) && g.Has(u) && g.EdgesBegin(u) <= i < g.EdgesEnd(u)
    ensures GoalBound(g, goals, u).AtMost(GoalBound(g, goals, g.Target(i)).Plus(g.edges[i].distance))
  {
    if goals != [] {
      BoundIsConsistent(g, goals[..|goals| - 1], u, i);
      var goal := goals[|goals| - 1].vertex;
      var v := g.Target(i);
      if g.Has(goal) {
        assert g.Chord(u, goal) <= g.Chord(u, v) + g.Chord(v, goal);
      }
    }
  }

  /** At a goal the bound is no more than the goal's own seed. */
  lemma {:induction false} BoundAtGoal(g: NavGraph, goals: seq<SeededEndpoint>, i: nat)
    requires i < |goals| && g.Has(goals[i].vertex)
    ensures GoalBound(g, goals, goals[i].vertex).Fin?
    ensures ChordIsLowerBound(g) ==> GoalBound(g, goals, goals[i].vertex).AtMost(Fin(goals[i].cost))
  {
    if i < |goals| - 1 {
      BoundAtGoal(g, goals[..|goals| - 1], i);
    }
  }

  /** The bound is finite everywhere or nowhere. */
  lemma {:induction false} BoundFiniteTogether(g: NavGraph, goals: seq<SeededEndpoint>, u: int, v: int)
    ensures GoalBound(g, goals, u).Fin? <==> GoalBound(g, goals, v).Fin?
  {
    if goals != [] {
      BoundFiniteTogether(g, goals[..|goals| - 1], u, v);
    }
  }

  class MultiGoalHeuristic {
    const graph: NavGraph
    const goals: seq<SeededEndpoint>
    var cache: seq<Ext>

    ghost predicate Valid()
      reads this
    {
      && |cache| == graph.vertices
      && forall v :: 0 <= v < |cache| ==> cache[v] == Fin(-1.0) || cache[v] == GoalBound(graph, goals, v)
    }

    constructor (graph: NavGraph, goals: seq<SeededEndpoint>)
      ensures Valid() && this.graph == graph && this.goals == goals
    {
      this.graph, this.goals := graph, goals;
      cache := seq(graph.vertices, _ => Fin(-1.0));
    }

    /** The bound at v, swept over the goals on the first call and remembered afterwards. */
    method Eval(v: int) returns (h: Ext)
      requires Valid() && graph.Has(v)
      modifies this
      ensures Valid() && h == GoalBound(graph, goals, v)
    {
      var slot := cache[v];
      if slot.Inf? || slot.value >= 0.0 {
        return slot;
      }
      h := Inf;
      for i := 0 to |goals|
        invariant cache == old(cache)
        invariant h == GoalBound(graph, goals[..i], v)
      {
        assert goals[..i + 1][..i] == goals[..i];
        if 0 <= goals[i].vertex < graph.vertices {
          var bound := Fin(graph.Chord(v, goals[i].vertex) + goals[i].cost);
          if bound.Less(h) {
            h := bound;
          }
        }
      }
      assert goals[..|goals|] == goals;
      cache := cache[v := h];
    }
  }
}

/** Flying an airway between two fixes: Dijkstra's search over the edges that carry its name. */
module AirwayExpansion {
  import opened Numbers
  import opened NavGraphs
  import opened DesignatorLists
  import opened PathCosts

  /** The airway called `name` in a graph whose edges name their airways through `names`. */
  datatype Airway = Airway(graph: NavGraph, names: seq<string>, name: string) {

    function NameOf(id: nat): string {
      if id < |names| then names[id] else ""
    }

    predicate Carries(e: nat)
      requires e < |graph.edges|
    {
      graph.edges[e].airwayId != 0 && name in Designators(NameOf(graph.edges[e].airwayId))
    }

    /** Edge e leaves u along the airway. */
    ghost predicate On(u: int, e: nat) {
      graph.Has(u) && graph.EdgesBegin(u) <= e < graph.EdgesEnd(u) && e < |graph.edges| && Carries(e)
    }
  }

  /** An edge is on every airway its name lists, and on no other: a shared leg belongs to each of them. */
  lemma CarriesEachName(a: Airway, e: nat, shared: seq<string>)
    requires e < |a.graph.edges|
    ensures a.Carries(e) <==> a.graph.edges[e].airwayId != 0 && HasRun(a.NameOf(a.graph.edges[e].airwayId), a.name)
    ensures (forall d :: d in shared ==> IsName(d)) && a.NameOf(a.graph.edges[e].airwayId) == JoinNames(shared) ==>
              (a.Carries(e) <==> a.graph.edges[e].airwayId != 0 && a.name in shared)
  {
    hide HasRun, JoinNames, IsName, Designators;
    ListedIffRun(a.NameOf(a.graph.edges[e].airwayId), a.name);
    if (forall d :: d in shared ==> IsName(d)) && a.NameOf(a.graph.edges[e].airwayId) == JoinNames(shared) {
      SplitUndoesJoin(shared);
    }
  }

  function Head(a: Airway, e: nat): int {
    if e < |a.graph.edges| then a.graph.edges[e].to else -1
  }

  function Nm(a: Airway, e: nat): (d: real)
    ensures d >= 0.0
  {
    if e < |a.graph.edges| then a.graph.edges[e].distance else 0.0
  }

  /** A walk along the airway, as the edges ridden. */
  ghost predicate Rides(a: Airway, u: int, es: seq<nat>)
    decreases |es|
  {
    es == [] || (a.On(u, es[0]) && Rides(a, Head(a, es[0]), es[1..]))
  }

  ghost function End(a: Airway, u: int, es: seq<nat>): int {
    if es == [] then u else Head(a, es[|es| - 1])
  }

  ghost function Length(a: Airway, es: seq<nat>): (d: real)
    ensures d >= 0.0
  {
    if es == [] then 0.0 else Nm(a, es[0]) + Length(a, es[1..])
  }

  /** The fixes a walk calls at, its start left out. */
  ghost function Stops(a: Airway, es: seq<nat>): (p: seq<int>)
    ensures |p| == |es|
  {
    if es == [] then [] else [Head(a, es[0])] + Stops(a, es[1..])
  }

  ghost predicate Connects(a: Airway, u: int, v: int, es: seq<nat>) {
    Rides(a, u, es) && End(a, u, es) == v
  }

  ghost predicate Shortest(a: Airway, u: int, v: int, es: seq<nat>) {
    Connects(a, u, v, es) && forall other :: Connects(a, u, v, other) ==> Length(a, es) <= Length(a, other)
  }

  // ---- Labels and the queue -------------------------------------------------------------------

  datatype Label = Label(dist: real, prev: int)

  datatype Entry = Entry(dist: real, vertex: int)

  type Labels = map<int, Label>

  function DistOf(labels: Labels, v: int): Ext {
    if v in labels then Fin(labels[v].dist) else Inf
  }

  predicate Sooner(x: Entry, y: Entry) {
    x.dist < y.dist || (x.dist == y.dist && x.vertex <= y.vertex)
  }

  method PopTop(pq: seq<Entry>) returns (top: Entry, rest: seq<Entry>)
    requires pq != []
    ensures forall q :: q in pq ==> Sooner(top, q)
    ensures exists k :: 0 <= k < |pq| && top == pq[k] && rest == pq[..k] + pq[k + 1..]
  {
    var k := 0;
    for i := 1 to |pq|
      invariant 0 <= k < |pq|
      invariant forall j :: 0 <= j < i ==> Sooner(pq[k], pq[j])
    {
      if !Sooner(pq[k], pq[i]) {
        k := i;
      }
    }
    top, rest := pq[k], pq[..k] + pq[k + 1..];
  }

  // ---- The invariant --------------------------------------------------------------------------

  /** Position in the order of settling; unsettled vertices come last. */
  ghost function Rank(order: seq<int>, v: int): (k: nat)
    ensures k <= |order| && (k < |order| <==> v in order) && (k < |order| ==> order[k] == v)
  {
    if order == [] then 0 else if order[0] == v then 0 else 1 + Rank(order[1..], v)
  }

  /** v's label was set from a vertex settled before it, over an edge of the airway. */
  ghost predicate Parented(a: Airway, labels: Labels, order: seq<int>, v: int) {
    && v in labels && labels[v].prev in order && labels[v].prev in labels
    && Rank(order, labels[v].prev) < Rank(order, v)
    && exists e :: Via(a, labels, v, e)
  }

  ghost predicate Via(a: Airway, labels: Labels, v: int, e: nat) {
    && v in labels && labels[v].prev in labels
    && a.On(labels[v].prev, e) && Head(a, e) == v && labels[v].dist == labels[labels[v].prev].dist + Nm(a, e)
  }

  ghost predicate Tree(a: Airway, from: int, labels: Labels, order: seq<int>) {
    && from in labels && labels[from] == Label(0.0, -1) && (order != [] ==> order[0] == from)
    && Simple(order) && (forall v :: v in order ==> v in labels)
    && (forall v :: v in labels ==> a.graph.Has(v) && labels[v].dist >= 0.0)
    && (forall v :: v in labels && v != from ==> Parented(a, labels, order, v))
  }

  ghost predicate Queued(labels: Labels, order: seq<int>, pq: seq<Entry>) {
    && (forall q :: q in pq ==> q.vertex in labels && labels[q.vertex].dist <= q.dist)
    && (forall v :: v in labels && v !in order ==> Entry(labels[v].dist, v) in pq)
    && (forall q :: q in pq && q.vertex in order ==> labels[q.vertex].dist < q.dist)
    && (forall v, q :: v in order && v in labels && q in pq ==> labels[v].dist <= q.dist)
    && (forall i, j :: 0 <= i < j < |pq| ==> pq[i] != pq[j])
  }

  /** Edge e out of u has been relaxed. */
  ghost predicate Relaxed(a: Airway, labels: Labels, u: int, e: nat) {
    u in labels && Head(a, e) in labels && labels[Head(a, e)].dist <= labels[u].dist + Nm(a, e)
  }

  /** Every airway edge out of a settled vertex has been relaxed, the last one's only up to row position `upto`. */
  ghost predicate Scanned(a: Airway, labels: Labels, order: seq<int>, upto: nat) {
    forall u, e: nat :: u in order && a.On(u, e) && (u != order[|order| - 1] || e < upto) ==> Relaxed(a, labels, u, e)
  }

  ghost predicate Inv(a: Airway, from: int, labels: Labels, order: seq<int>, pq: seq<Entry>, upto: nat) {
    Tree(a, from, labels, order) && Queued(labels, order, pq) && Scanned(a, labels, order, upto)
  }

  // ---- Starting and popping -------------------------------------------------------------------

  lemma Starts(a: Airway, from: int)
    requires a.graph.Has(from)
    ensures Inv(a, from, map[from := Label(0.0, -1)], [], [Entry(0.0, from)], 0)
  {
  }

  /** The queue after its least entry is taken out. */
  ghost predicate PopsTop(pq: seq<Entry>, top: Entry, rest: seq<Entry>) {
    && (forall q :: q in pq ==> Sooner(top, q))
    && exists k :: 0 <= k < |pq| && top == pq[k] && rest == pq[..k] + pq[k + 1..]
  }

  lemma PopMembers(pq: seq<Entry>, top: Entry, rest: seq<Entry>)
    requires PopsTop(pq, top, rest) && forall i, j :: 0 <= i < j < |pq| ==> pq[i] != pq[j]
    ensures top in pq && |rest| == |pq| - 1 && forall q :: q in pq ==> Sooner(top, q)
    ensures forall q :: q in rest <==> q in pq && q != top
    ensures forall i, j :: 0 <= i < j < |rest| ==> rest[i] != rest[j]
  {
    var k :| 0 <= k < |pq| && top == pq[k] && rest == pq[..k] + pq[k + 1..];
    assert forall i :: 0 <= i < |rest| ==> rest[i] == pq[if i < k then i else i + 1];
    forall q
      ensures q in rest <==> q in pq && q != top
    {
      if q in pq && q != top {
        var i :| 0 <= i < |pq| && pq[i] == q;
        assert rest[if i < k then i else i - 1] == q;
      }
    }
  }

  /** A stale entry is one whose vertex has since been reached sooner; dropping it keeps everything. */
  lemma DropStale(a: Airway, from: int, labels: Labels, order: seq<int>, pq: seq<Entry>, upto: nat, top: Entry, rest: seq<Entry>)
    requires Inv(a, from, labels, order, pq, upto) && PopsTop(pq, top, rest)
    requires top.vertex in labels && labels[top.vertex].dist < top.dist
    ensures Inv(a, from, labels, order, rest, upto)
  {
    hide Tree, Scanned, PopsTop;
    PopMembers(pq, top, rest);
  }

  /** A fresh entry's vertex is settled: its label will not change again. */
  lemma Settle(a: Airway, from: int, labels: Labels, order: seq<int>, pq: seq<Entry>, upto: nat, top: Entry, rest: seq<Entry>)
    requires Inv(a, from, labels, order, pq, upto) && PopsTop(pq, top, rest)
    requires top.vertex in labels && labels[top.vertex].dist >= top.dist
    requires order != [] ==> upto >= a.graph.EdgesEnd(order[|order| - 1])
    ensures top.vertex !in order && labels[top.vertex].dist == top.dist
    ensures Inv(a, from, labels, order + [top.vertex], rest, a.graph.EdgesBegin(top.vertex))
  {
    hide Parented, Relaxed, PopsTop;
    PopMembers(pq, top, rest);
    var u := top.vertex;
    SettleTree(a, from, labels, order, u, pq, top);
    SettleScanned(a, labels, order, upto, u);
  }

  lemma SettleTree(a: Airway, from: int, labels: Labels, order: seq<int>, u: int, pq: seq<Entry>, top: Entry)
    requires Tree(a, from, labels, order) && Queued(labels, order, pq) && u in labels && u !in order
    requires top == Entry(labels[u].dist, u) && (forall q :: q in pq ==> Sooner(top, q))
    ensures Tree(a, from, labels, order + [u])
  {
    hide Queued, Via;
    var next := order + [u];
    forall v | v in labels && v != from
      ensures Parented(a, labels, next, v)
    {
      assert Parented(a, labels, order, v);
      RankGrows(order, u, v);
      RankGrows(order, u, labels[v].prev);
    }
    if order == [] {
      assert u != from ==> Parented(a, labels, order, u);
    }
  }

  lemma {:induction false} RankGrows(order: seq<int>, u: int, v: int)
    requires u !in order
    ensures v in order ==> Rank(order + [u], v) == Rank(order, v)
    ensures v !in order ==> Rank(order + [u], v) == if v == u then |order| else |order| + 1
  {
    var next := order + [u];
    if order != [] {
      assert next[1..] == order[1..] + [u];
      RankGrows(order[1..], u, v);
    } else {
      assert next[1..] == [];
    }
  }

  lemma SettleScanned(a: Airway, labels: Labels, order: seq<int>, upto: nat, u: int)
    requires Scanned(a, labels, order, upto) && u !in order
    requires order != [] ==> upto >= a.graph.EdgesEnd(order[|order| - 1])
    ensures Scanned(a, labels, order + [u], a.graph.EdgesBegin(u))
  {
    hide Relaxed;
    var next := order + [u];
    assert next[|next| - 1] == u;
  }

  // ---- Relaxing -------------------------------------------------------------------------------

  /** Edge e of the vertex being settled is skipped, or its target is already reached as soon. */
  lemma Pass(a: Airway, from: int, labels: Labels, order: seq<int>, pq: seq<Entry>, e: nat)
    requires Inv(a, from, labels, order, pq, e) && order != []
    requires var u := order[|order| - 1]; a.On(u, e) ==> Relaxed(a, labels, u, e)
    ensures Inv(a, from, labels, order, pq, e + 1)
  {
    hide Tree, Queued, Relaxed;
  }

  /** u is the vertex being settled: the last in the order, and the farthest. */
  ghost predicate Settling(labels: Labels, order: seq<int>, u: int) {
    && order != [] && order[|order| - 1] == u && u in labels
    && forall v :: v in order && v in labels ==> labels[v].dist <= labels[u].dist
  }

  /** The target of e gets an earlier label and a queue entry. */
  lemma Relabel(a: Airway, from: int, labels: Labels, order: seq<int>, pq: seq<Entry>, e: nat, u: int, v: int, l: Label)
    requires Inv(a, from, labels, order, pq, e) && Settling(labels, order, u)
    requires a.On(u, e) && v == Head(a, e) && l == Label(labels[u].dist + Nm(a, e), u)
    requires Fin(l.dist).Less(DistOf(labels, v))
    ensures v !in order && Inv(a, from, labels[v := l], order, pq + [Entry(l.dist, v)], e + 1)
  {
    hide *;
    InvParts(a, from, labels, order, pq, e);
    SoonerIsUnsettled(a, from, labels, order, u, v, l);
    RelabelTree(a, from, labels, order, e, u, v, l);
    RelabelQueue(labels, order, pq, u, v, l);
    RelabelScan(a, labels, order, e, u, v, l);
    InvWhole(a, from, labels[v := l], order, pq + [Entry(l.dist, v)], e + 1);
  }

  lemma SoonerIsUnsettled(a: Airway, from: int, labels: Labels, order: seq<int>, u: int, v: int, l: Label)
    requires Tree(a, from, labels, order) && Settling(labels, order, u)
    requires labels[u].dist <= l.dist && Fin(l.dist).Less(DistOf(labels, v))
    ensures v !in order
  {
    hide Parented, Simple;
  }

  lemma InvParts(a: Airway, from: int, labels: Labels, order: seq<int>, pq: seq<Entry>, upto: nat)
    requires Inv(a, from, labels, order, pq, upto)
    ensures Tree(a, from, labels, order) && Queued(labels, order, pq) && Scanned(a, labels, order, upto)
  {
    hide Tree, Queued, Scanned;
  }

  lemma InvWhole(a: Airway, from: int, labels: Labels, order: seq<int>, pq: seq<Entry>, upto: nat)
    requires Tree(a, from, labels, order) && Queued(labels, order, pq) && Scanned(a, labels, order, upto)
    ensures Inv(a, from, labels, order, pq, upto)
  {
    hide Tree, Queued, Scanned;
  }

  lemma RelabelTree(a: Airway, from: int, labels: Labels, order: seq<int>, e: nat, u: int, v: int, l: Label)
    requires Tree(a, from, labels, order) && Settling(labels, order, u) && v == Head(a, e) && v !in order
    requires a.On(u, e) && l == Label(labels[u].dist + Nm(a, e), u)
    ensures Tree(a, from, labels[v := l], order)
  {
    var next := labels[v := l];
    assert u in order && from in order;
    assert a.graph.Has(v);
    forall x | x in next && x != from
      ensures Parented(a, next, order, x)
    {
      if x == v {
        assert Via(a, next, v, e);
      } else {
        assert Parented(a, labels, order, x);
        var e' :| Via(a, labels, x, e');
        assert Via(a, next, x, e');
      }
    }
  }

  lemma RelabelQueue(labels: Labels, order: seq<int>, pq: seq<Entry>, u: int, v: int, l: Label)
    requires Queued(labels, order, pq) && Settling(labels, order, u) && labels[u].dist <= l.dist
    requires v !in order && Fin(l.dist).Less(DistOf(labels, v))
    ensures Queued(labels[v := l], order, pq + [Entry(l.dist, v)])
  {
    var next, out := labels[v := l], pq + [Entry(l.dist, v)];
    forall i, j | 0 <= i < j < |out|
      ensures out[i] != out[j]
    {
      assert pq[i] in pq;
    }
    forall x | x in next && x !in order
      ensures Entry(next[x].dist, x) in out
    {
      if x == v {
        assert out[|pq|] == Entry(l.dist, v);
      } else {
        assert Entry(labels[x].dist, x) in pq;
      }
    }
  }

  lemma RelabelScan(a: Airway, labels: Labels, order: seq<int>, e: nat, u: int, v: int, l: Label)
    requires Scanned(a, labels, order, e) && Settling(labels, order, u) && v == Head(a, e) && v !in order
    requires l == Label(labels[u].dist + Nm(a, e), u) && Fin(l.dist).Less(DistOf(labels, v))
    ensures Scanned(a, labels[v := l], order, e + 1)
  {
    var next := labels[v := l];
    assert u in order;
    forall x, f: nat | x in order && a.On(x, f) && (x != u || f < e + 1)
      ensures Relaxed(a, next, x, f)
    {
      if x != u || f < e {
        assert Relaxed(a, labels, x, f);
      }
    }
  }

  // ---- What the labels say about every walk ----------------------------------------------------

  /** The last settled vertex's whole row has been relaxed. */
  ghost predicate RowDone(a: Airway, order: seq<int>, upto: nat) {
    order != [] ==> upto >= a.graph.EdgesEnd(order[|order| - 1])
  }

  /** A walk either ends at a settled vertex labelled no later, or some queue entry is due no later than its end. */
  ghost predicate Accounted(a: Airway, labels: Labels, order: seq<int>, pq: seq<Entry>, v: int, d: real) {
    (v in order && v in labels && labels[v].dist <= d) || exists q :: q in pq && q.dist <= d
  }

  lemma {:induction false} WalkIsAccounted(a: Airway, from: int, labels: Labels, order: seq<int>, pq: seq<Entry>, upto: nat,
                                           u: int, es: seq<nat>, d: real)
    requires Inv(a, from, labels, order, pq, upto) && RowDone(a, order, upto)
    requires u in labels && labels[u].dist <= d && Rides(a, u, es)
    ensures Accounted(a, labels, order, pq, End(a, u, es), d + Length(a, es))
    decreases |es|
  {
    hide Inv, RowDone, Airway.On;
    if u !in order {
      UnsettledIsQueued(a, from, labels, order, pq, upto, u);
    } else if es != [] {
      RowIsRelaxed(a, from, labels, order, pq, upto, u, es[0]);
      WalkIsAccounted(a, from, labels, order, pq, upto, Head(a, es[0]), es[1..], d + Nm(a, es[0]));
    }
  }

  lemma UnsettledIsQueued(a: Airway, from: int, labels: Labels, order: seq<int>, pq: seq<Entry>, upto: nat, u: int)
    requires Inv(a, from, labels, order, pq, upto) && u in labels && u !in order
    ensures Entry(labels[u].dist, u) in pq
  {
    hide Tree, Scanned;
  }

  lemma RowIsRelaxed(a: Airway, from: int, labels: Labels, order: seq<int>, pq: seq<Entry>, upto: nat, u: int, e: nat)
    requires Inv(a, from, labels, order, pq, upto) && RowDone(a, order, upto) && u in order && a.On(u, e)
    ensures Relaxed(a, labels, u, e)
  {
    hide Tree, Queued, Relaxed;
  }

  /** No walk to `to` is shorter than its label, and an unlabelled `to` has none. */
  ghost predicate NoneShorter(a: Airway, from: int, to: int, labels: Labels) {
    forall es :: Connects(a, from, to, es) ==> to in labels && labels[to].dist <= Length(a, es)
  }

  /** When the queue's least entry is a fresh one for `to`, or the queue is empty, the label of `to` is final. */
  lemma LabelIsFinal(a: Airway, from: int, to: int, labels: Labels, order: seq<int>, pq: seq<Entry>, upto: nat)
    requires Inv(a, from, labels, order, pq, upto) && RowDone(a, order, upto)
    requires pq != [] ==> to in labels && forall q :: q in pq ==> labels[to].dist <= q.dist
    ensures NoneShorter(a, from, to, labels)
  {
    hide Tree, Queued, Scanned, Rides, End, Length, RowDone;
    RootIsLabelled(a, from, labels, order);
    forall es | Connects(a, from, to, es)
      ensures to in labels && labels[to].dist <= Length(a, es)
    {
      WalkIsAccounted(a, from, labels, order, pq, upto, from, es, 0.0);
    }
  }

  lemma RootIsLabelled(a: Airway, from: int, labels: Labels, order: seq<int>)
    requires Tree(a, from, labels, order)
    ensures from in labels && labels[from].dist == 0.0 && |order| <= a.graph.vertices
  {
    hide Parented;
    assert forall i :: 0 <= i < |order| ==> order[i] in order;
    SimpleIsBounded(order, a.graph.vertices);
  }

  // ---- The chain ------------------------------------------------------------------------------

  function Reversed(s: seq<int>): (r: seq<int>)
    ensures |r| == |s|
  {
    if s == [] then [] else [s[|s| - 1]] + Reversed(s[..|s| - 1])
  }

  /** es is the part of the tree from `at` down to `to`, and `chain` its stops from the far end. */
  ghost predicate Traced(a: Airway, labels: Labels, order: seq<int>, to: int, at: int, es: seq<nat>, chain: seq<int>) {
    && at in labels && to in labels
    && Connects(a, at, to, es) && labels[at].dist + Length(a, es) == labels[to].dist
    && Stops(a, es) == Reversed(chain)
    && Simple([at] + Stops(a, es)) && forall x :: x in Stops(a, es) ==> Rank(order, at) < Rank(order, x)
  }

  lemma TraceStarts(a: Airway, labels: Labels, order: seq<int>, to: int)
    requires to in labels
    ensures Traced(a, labels, order, to, to, [], [])
  {
  }

  lemma ParentEdge(a: Airway, from: int, labels: Labels, order: seq<int>, at: int) returns (e: nat)
    requires Tree(a, from, labels, order) && at in labels && at != from
    ensures Via(a, labels, at, e) && Rank(order, labels[at].prev) < Rank(order, at)
  {
    hide Via, Simple, Rank;
    assert Parented(a, labels, order, at);
    e :| Via(a, labels, at, e);
  }

  lemma RidesFirst(a: Airway, u: int, e: nat, es: seq<nat>)
    requires a.On(u, e)
    ensures Rides(a, u, [e] + es) <==> Rides(a, Head(a, e), es)
    ensures End(a, u, [e] + es) == End(a, Head(a, e), es)
    ensures Length(a, [e] + es) == Nm(a, e) + Length(a, es) && Stops(a, [e] + es) == [Head(a, e)] + Stops(a, es)
  {
    hide Airway.On;
    assert ([e] + es)[1..] == es;
  }

  /** Following one predecessor extends the trace. */
  lemma TraceStep(a: Airway, from: int, labels: Labels, order: seq<int>, to: int, at: int, es: seq<nat>, chain: seq<int>)
    returns (e: nat)
    requires Tree(a, from, labels, order) && Traced(a, labels, order, to, at, es, chain) && at != from
    ensures var prev := labels[at].prev;
            Traced(a, labels, order, to, prev, [e] + es, chain + [at]) && Rank(order, prev) < Rank(order, at)
  {
    hide *;
    TracedParts(a, labels, order, to, at, es, chain);
    e := ParentEdge(a, from, labels, order, at);
    RidesOn(a, labels, to, at, e, es);
    ReversedAppend(chain, at);
    RanksApart(order, labels[at].prev, at, Stops(a, es));
    TracedWhole(a, labels, order, to, labels[at].prev, [e] + es, chain + [at]);
  }

  lemma RidesOn(a: Airway, labels: Labels, to: int, at: int, e: nat, es: seq<nat>)
    requires at in labels && to in labels && Via(a, labels, at, e)
    requires Connects(a, at, to, es) && labels[at].dist + Length(a, es) == labels[to].dist
    ensures var prev := labels[at].prev;
            && prev in labels && Connects(a, prev, to, [e] + es)
            && labels[prev].dist + Length(a, [e] + es) == labels[to].dist
            && Stops(a, [e] + es) == [at] + Stops(a, es)
  {
    RidesFirst(a, labels[at].prev, e, es);
    hide Rides, End, Length, Stops, Airway.On;
  }

  lemma ReversedAppend(chain: seq<int>, v: int)
    ensures Reversed(chain + [v]) == [v] + Reversed(chain)
  {
    assert (chain + [v])[..|chain|] == chain;
  }

  lemma TracedParts(a: Airway, labels: Labels, order: seq<int>, to: int, at: int, es: seq<nat>, chain: seq<int>)
    requires Traced(a, labels, order, to, at, es, chain)
    ensures at in labels && to in labels && Connects(a, at, to, es) && labels[at].dist + Length(a, es) == labels[to].dist
    ensures Stops(a, es) == Reversed(chain) && Simple([at] + Stops(a, es))
    ensures forall x :: x in Stops(a, es) ==> Rank(order, at) < Rank(order, x)
  {
    hide Connects, Length, Stops, Reversed, Simple, Rank;
  }

  lemma TracedWhole(a: Airway, labels: Labels, order: seq<int>, to: int, at: int, es: seq<nat>, chain: seq<int>)
    requires at in labels && to in labels && Connects(a, at, to, es) && labels[at].dist + Length(a, es) == labels[to].dist
    requires Stops(a, es) == Reversed(chain) && Simple([at] + Stops(a, es))
    requires forall x :: x in Stops(a, es) ==> Rank(order, at) < Rank(order, x)
    ensures Traced(a, labels, order, to, at, es, chain)
  {
    hide Connects, Length, Stops, Reversed, Simple, Rank;
  }

  lemma RanksApart(order: seq<int>, u: int, v: int, stops: seq<int>)
    requires Rank(order, u) < Rank(order, v) && (forall x :: x in stops ==> Rank(order, v) < Rank(order, x))
    requires Simple([v] + stops)
    ensures Simple([u] + ([v] + stops)) && forall x :: x in [v] + stops ==> Rank(order, u) < Rank(order, x)
  {
    hide Rank;
    var tail := [v] + stops;
    var all := [u] + tail;
    forall x | x in tail
      ensures Rank(order, u) < Rank(order, x)
    {
    }
    forall i, j | 0 <= i < j < |all|
      ensures all[i] != all[j]
    {
      assert all[j] == tail[j - 1] && tail[j - 1] in tail;
      assert i > 0 ==> all[i] == tail[i - 1];
    }
  }

  /** Follows predecessors from `to` back to `from`. */
  method Trace(a: Airway, from: int, to: int, labels: Labels, ghost order: seq<int>) returns (chain: seq<int>, ghost es: seq<nat>)
    requires Tree(a, from, labels, order) && to in labels
    ensures Connects(a, from, to, es) && Length(a, es) == labels[to].dist
    ensures chain == Stops(a, es) && Simple([from] + chain)
  {
    hide Tree, Traced, Rank;
    es := [];
    var back: seq<int> := [];
    var at := to;
    TraceStarts(a, labels, order, to);
    TraceFacts(a, from, labels, order, to, at, es, back);
    while at != from && at != -1
      invariant Traced(a, labels, order, to, at, es, back) && at in labels && at != -1
      decreases Rank(order, at)
    {
      var e := TraceStep(a, from, labels, order, to, at, es, back);
      es := [e] + es;
      back := back + [at];
      at := labels[at].prev;
      TraceFacts(a, from, labels, order, to, at, es, back);
    }
    chain := Reversed(back);
    TraceEnds(a, from, labels, order, to, es, back);
  }

  lemma TraceFacts(a: Airway, from: int, labels: Labels, order: seq<int>, to: int, at: int, es: seq<nat>, chain: seq<int>)
    requires Tree(a, from, labels, order) && Traced(a, labels, order, to, at, es, chain)
    ensures at in labels && at != -1
  {
    hide Parented, Simple, Rank, Connects;
  }

  lemma TraceEnds(a: Airway, from: int, labels: Labels, order: seq<int>, to: int, es: seq<nat>, chain: seq<int>)
    requires Tree(a, from, labels, order) && Traced(a, labels, order, to, from, es, chain)
    ensures Connects(a, from, to, es) && Length(a, es) == labels[to].dist
    ensures Reversed(chain) == Stops(a, es) && Simple([from] + Stops(a, es))
  {
    hide Parented, Simple, Rank, Connects;
  }

  // ---- The search -----------------------------------------------------------------------------

  /** Whether edge e carries the airway's name; DCT edges carry none. */
  method IsOnAirway(a: Airway, e: nat) returns (on: bool)
    requires e < |a.graph.edges|
    ensures on <==> a.Carries(e)
  {
    if a.graph.edges[e].airwayId == 0 {
      return false;
    }
    var names := SplitDesignators(a.NameOf(a.graph.edges[e].airwayId));
    on := a.name in names;
  }

  /** Relaxes the row of the vertex just settled. */
  method RelaxRow(a: Airway, ghost from: int, labels: Labels, ghost order: seq<int>, pq: seq<Entry>, u: int)
    returns (labels': Labels, pq': seq<Entry>)
    requires a.graph.Has(u) && Settling(labels, order, u) && Inv(a, from, labels, order, pq, a.graph.EdgesBegin(u))
    ensures Inv(a, from, labels', order, pq', a.graph.EdgesEnd(u)) && Settling(labels', order, u)
  {
    hide Inv, Settling, Airway.Carries;
    labels', pq' := labels, pq;
    for e := a.graph.EdgesBegin(u) to a.graph.EdgesEnd(u)
      invariant Inv(a, from, labels', order, pq', e) && Settling(labels', order, u)
    {
      SettlingFacts(labels', order, u);
      var on := IsOnAirway(a, e);
      var v, nd := a.graph.edges[e].to, labels'[u].dist + a.graph.edges[e].distance;
      if on && Fin(nd).Less(DistOf(labels', v)) {
        Relabel(a, from, labels', order, pq', e, u, v, Label(nd, u));
        StillSettling(labels', order, u, v, Label(nd, u));
        labels' := labels'[v := Label(nd, u)];
        pq' := pq' + [Entry(nd, v)];
      } else {
        Pass(a, from, labels', order, pq', e);
      }
    }
  }

  lemma SettlingFacts(labels: Labels, order: seq<int>, u: int)
    requires Settling(labels, order, u)
    ensures order != [] && order[|order| - 1] == u && u in order && u in labels
  {
  }

  lemma StillSettling(labels: Labels, order: seq<int>, u: int, v: int, l: Label)
    requires Settling(labels, order, u) && v !in order
    ensures Settling(labels[v := l], order, u)
  {
    assert u in order;
  }

  /** The fixes from `from` to `to` along the airway by the shortest way; none when the airway does not connect them. */
  method ExpandAirway(a: Airway, from: int, to: int) returns (chain: seq<int>)
    requires a.graph.Has(from)
    ensures from == to ==> chain == []
    ensures from != to ==> (chain != [] <==> exists es :: Connects(a, from, to, es))
    ensures chain != [] ==> exists es :: Shortest(a, from, to, es) && Stops(a, es) == chain
    ensures Simple([from] + chain)
  {
    hide Inv, Settling, RowDone, Connects, NoneShorter, Tree, Length, Stops, Simple;
    var labels: Labels := map[from := Label(0.0, -1)];
    var pq := [Entry(0.0, from)];
    ghost var order: seq<int> := [];
    ghost var upto := 0;
    Starts(a, from);
    NothingSettled(a);
    while pq != []
      invariant Inv(a, from, labels, order, pq, upto) && RowDone(a, order, upto)
      decreases a.graph.vertices - |order|, |pq|
    {
      var top, rest := PopTop(pq);
      EntryFacts(a, from, labels, order, pq, upto, top, rest);
      if DistOf(labels, top.vertex).Less(Fin(top.dist)) {
        DropStale(a, from, labels, order, pq, upto, top, rest);
        pq := rest;
        continue;
      }
      if top.vertex == to {
        LabelIsFinal(a, from, to, labels, order, pq, upto);
        break;
      }
      Settle(a, from, labels, order, pq, upto, top, rest) by { RowIsDone(a, order, upto); }
      BeginsToSettle(a, from, labels, order, pq, upto, top, rest);
      order := order + [top.vertex];
      labels, pq := RelaxRow(a, from, labels, order, rest, top.vertex);
      upto := a.graph.EdgesEnd(top.vertex);
      OrderIsBounded(a, from, labels, order, pq, upto);
      RowJustDone(a, order, top.vertex);
    }
    if pq == [] {
      LabelIsFinal(a, from, to, labels, order, pq, upto);
    }
    if to !in labels {
      NotReached(a, from, to, labels);
      return [];
    }
    ghost var es;
    InvParts(a, from, labels, order, pq, upto);
    chain, es := Trace(a, from, to, labels, order);
    TracedIsShortest(a, from, to, labels, es);
  }

  lemma NothingSettled(a: Airway)
    ensures RowDone(a, [], 0)
  {
  }

  lemma RowIsDone(a: Airway, order: seq<int>, upto: nat)
    requires RowDone(a, order, upto)
    ensures order != [] ==> upto >= a.graph.EdgesEnd(order[|order| - 1])
  {
  }

  lemma RowJustDone(a: Airway, order: seq<int>, u: int)
    requires order != [] && order[|order| - 1] == u
    ensures RowDone(a, order, a.graph.EdgesEnd(u))
  {
  }

  lemma EntryFacts(a: Airway, from: int, labels: Labels, order: seq<int>, pq: seq<Entry>, upto: nat, top: Entry, rest: seq<Entry>)
    requires Inv(a, from, labels, order, pq, upto) && (forall q :: q in pq ==> Sooner(top, q))
    requires exists k :: 0 <= k < |pq| && top == pq[k] && rest == pq[..k] + pq[k + 1..]
    ensures PopsTop(pq, top, rest) && |rest| < |pq|
    ensures top.vertex in labels && a.graph.Has(top.vertex) && labels[top.vertex].dist <= top.dist
    ensures forall q :: q in pq ==> top.dist <= q.dist
  {
    hide Parented, Scanned, Simple;
    assert top in pq;
  }

  lemma BeginsToSettle(a: Airway, from: int, labels: Labels, order: seq<int>, pq: seq<Entry>, upto: nat, top: Entry, rest: seq<Entry>)
    requires Inv(a, from, labels, order, pq, upto) && PopsTop(pq, top, rest)
    requires top.vertex in labels && labels[top.vertex].dist == top.dist
    ensures Settling(labels, order + [top.vertex], top.vertex)
  {
    hide Tree, Scanned;
    assert top in pq;
  }

  lemma OrderIsBounded(a: Airway, from: int, labels: Labels, order: seq<int>, pq: seq<Entry>, upto: nat)
    requires Inv(a, from, labels, order, pq, upto)
    ensures |order| <= a.graph.vertices
  {
    hide Tree, Queued, Scanned;
    RootIsLabelled(a, from, labels, order);
  }

  lemma TracedIsShortest(a: Airway, from: int, to: int, labels: Labels, es: seq<nat>)
    requires NoneShorter(a, from, to, labels) && to in labels
    requires Connects(a, from, to, es) && Length(a, es) == labels[to].dist && Simple([from] + Stops(a, es))
    ensures Shortest(a, from, to, es)
    ensures Stops(a, es) == [] <==> from == to
  {
    hide Rides, Length;
    if es != [] {
      LastStop(a, from, es);
      var all := [from] + Stops(a, es);
      assert all[0] != all[|es|];
    }
  }

  lemma {:induction false} LastStop(a: Airway, u: int, es: seq<nat>)
    requires es != []
    ensures Stops(a, es)[|es| - 1] == End(a, u, es)
    decreases |es|
  {
    if |es| > 1 {
      LastStop(a, Head(a, es[0]), es[1..]);
    }
  }

  lemma NotReached(a: Airway, from: int, to: int, labels: Labels)
    requires NoneShorter(a, from, to, labels) && to !in labels
    ensures !exists es :: Connects(a, from, to, es)
    ensures Simple([from] + [])
  {
    hide Connects;
  }
}

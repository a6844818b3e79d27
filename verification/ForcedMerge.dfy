/** Best-first merging of per-hop alternatives: stitching, the pick frontier, and the ready queue. */
module ForcedMerge {
  import opened Numbers
  import opened NavGraphs
  import opened SearchModel
  import opened PathCosts
  import opened Workspaces
  import opened AStarInvariants
  import opened AStar
  import opened YenPartition
  import opened YenCandidates
  import opened YenSpurs
  import opened Yen
  import opened ForcedPicks
  import opened ForcedStitch

  const MAX_STITCHED_PICKS := 4096

  // ---- Stitching ------------------------------------------------------------------------------

  ghost predicate Seamed(parts: seq<Path>) {
    && (forall h :: 0 <= h < |parts| ==> parts[h] != [])
    && (forall h :: 0 < h < |parts| ==> parts[h][0] == parts[h - 1][|parts[h - 1]| - 1])
  }

  lemma {:induction false} JoinEnds(parts: seq<Path>)
    requires Seamed(parts) && parts != []
    ensures Join(parts) != [] && Join(parts)[|Join(parts)| - 1] == parts[|parts| - 1][|parts[|parts| - 1]| - 1]
    decreases |parts|
  {
    if |parts| > 1 {
      JoinEnds(parts[..|parts| - 1]);
      EndsAlike(Join(parts[..|parts| - 1]), parts[|parts| - 1]);
    }
  }

  lemma {:induction false} JoinInRange(t: Task, parts: seq<Path>)
    requires forall h :: 0 <= h < |parts| ==> InRange(t, parts[h])
    ensures InRange(t, Join(parts))
    decreases |parts|
  {
    if |parts| > 1 {
      JoinInRange(t, parts[..|parts| - 1]);
    }
  }

  method HasNoRepeat(p: Path) returns (simple: bool)
    ensures simple <==> Simple(p)
  {
    var seen: set<int> := {};
    for i := 0 to |p|
      invariant forall v :: v in seen <==> v in p[..i]
      invariant Simple(p[..i])
    {
      assert p[..i + 1] == p[..i] + [p[i]];
      if p[i] in seen {
        var j :| 0 <= j < i && p[..i][j] == p[i];
        assert p[j] == p[i];
        return false;
      }
      seen := seen + {p[i]};
    }
    assert p[..|p|] == p;
    simple := true;
  }

  ghost predicate GoodSeam(parts: seq<Path>, h: nat)
    requires h < |parts| && (h > 0 ==> parts[h - 1] != [])
  {
    parts[h] != [] && (h > 0 ==> parts[h][0] == parts[h - 1][|parts[h - 1]| - 1])
  }

  /** One more part: a good seam lengthens the join, a bad one spoils the whole. */
  lemma SeamStep(parts: seq<Path>, h: nat)
    requires h < |parts| && Seamed(parts[..h])
    ensures h == 0 ==> Join(parts[..h]) == []
    ensures h > 0 ==> Join(parts[..h]) != [] && parts[h - 1] != []
                      && Join(parts[..h])[|Join(parts[..h])| - 1] == parts[h - 1][|parts[h - 1]| - 1]
    ensures if GoodSeam(parts, h)
            then Seamed(parts[..h + 1]) && Join(parts[..h + 1]) == (if h == 0 then parts[0] else Join(parts[..h]) + parts[h][1..])
            else !Seamed(parts)
  {
    SeamedStep(parts, h);
    hide Seamed;
    assert parts[..h + 1][..h] == parts[..h];
    if h > 0 {
      JoinEnds(parts[..h]);
      assert parts[..h][h - 1] == parts[h - 1];
    }
  }

  lemma SeamedStep(parts: seq<Path>, h: nat)
    requires h < |parts| && Seamed(parts[..h])
    ensures h > 0 ==> parts[h - 1] != []
    ensures if GoodSeam(parts, h) then Seamed(parts[..h + 1]) else !Seamed(parts)
  {
    var front := parts[..h];
    assert forall k :: 0 <= k < h ==> front[k] == parts[k];
  }

  /** Concatenates hop paths at their shared seams and re-costs the whole; fails on a broken seam or a repeated vertex. */
  method StitchAndCost(t: Task, parts: seq<Path>) returns (out: ShortestPath)
    requires forall h :: 0 <= h < |parts| ==> InRange(t, parts[h])
    ensures out.found <==> parts != [] && Seamed(parts) && Simple(Join(parts)) && RecostOf(t, Join(parts)).Some?
    ensures out.found ==> out.vertices == Join(parts) && RecostOf(t, Join(parts)) == Some(Leg(out.cost, out.distance))
    ensures !out.found ==> out == NOT_FOUND
  {
    hide RecostOf, Simple, Join, Seamed;
    var path: Path := [];
    NothingJoined();
    for h := 0 to |parts|
      invariant path == Join(parts[..h]) && Seamed(parts[..h])
    {
      var part := parts[h];
      SeamStep(parts, h);
      if part == [] || (path != [] && path[|path| - 1] != part[0]) {
        return NOT_FOUND;
      }
      path := if path == [] then part else path + part[1..];
    }
    assert parts[..|parts|] == parts;
    var simple := HasNoRepeat(path);
    if !simple {
      return NOT_FOUND;
    }
    JoinInRange(t, parts);
    var ok, cost, distance := CostOfPathMulti(t, path);
    out := if ok && path != [] then ShortestPath(path, distance, cost, true) else NOT_FOUND;
    NothingIsRecosted(t);
  }

  lemma NothingJoined()
    ensures Join([]) == [] && Seamed([])
  {
  }

  lemma NothingIsRecosted(t: Task)
    ensures RecostOf(t, []).None?
  {
  }

  // ---- Segments and picks ---------------------------------------------------------------------

  ghost predicate CostSorted(seg: seq<ShortestPath>) {
    forall i, j :: 0 <= i < j < |seg| ==> seg[i].cost <= seg[j].cost
  }

  /** The per-hop candidate lists: each hop's K shortest, in cost order. */
  ghost predicate Segments(via: Via, k: int, segments: seq<seq<ShortestPath>>) {
    && |segments| == |via.forced| + 1
    && forall h :: 0 <= h < |segments| ==>
         segments[h] != [] && KShortest(HopTask(via, h), k, segments[h]) && CostSorted(segments[h])
  }

  ghost function SizesOf(segments: seq<seq<ShortestPath>>): (sizes: Sizes)
    ensures |sizes| == |segments| && forall h :: 0 <= h < |segments| ==> sizes[h] == |segments[h]|
  {
    if segments == [] then [] else SizesOf(segments[..|segments| - 1]) + [|segments[|segments| - 1]|]
  }

  ghost function PartsOf(segments: seq<seq<ShortestPath>>, p: Pick): (parts: seq<ShortestPath>)
    requires InBox(SizesOf(segments), p)
    ensures |parts| == |segments| && forall h :: 0 <= h < |segments| ==> parts[h] == segments[h][p[h]]
  {
    seq(|segments|, h requires 0 <= h < |segments| => segments[h][p[h]])
  }

  /** The path a pick stitches together. */
  ghost function Stitched(segments: seq<seq<ShortestPath>>, p: Pick): Path {
    if InBox(SizesOf(segments), p) then Join(Vertices(PartsOf(segments, p))) else []
  }

  /** A pick whose stitched path repeats no vertex. */
  ghost predicate ValidPick(segments: seq<seq<ShortestPath>>, p: Pick) {
    InBox(SizesOf(segments), p) && Simple(Stitched(segments, p))
  }

  ghost function Lower(segments: seq<seq<ShortestPath>>, p: Pick): real {
    if InBox(SizesOf(segments), p) then SumCost(PartsOf(segments, p)) else 0.0
  }

  lemma PickIsHopParts(via: Via, k: int, segments: seq<seq<ShortestPath>>, p: Pick)
    requires Segments(via, k, segments) && InBox(SizesOf(segments), p)
    ensures HopParts(via, PartsOf(segments, p))
  {
    hide Priced, HopTask, Cheapest, Good;
    forall h | 0 <= h < |segments|
      ensures Priced(HopTask(via, h), PartsOf(segments, p)[h])
    {
      assert KShortest(HopTask(via, h), k, segments[h]);
    }
  }

  /** A valid pick stitches to a priced path through the forced fixes, costing at least its lower bound. */
  lemma ValidPickIsPriced(via: Via, k: int, segments: seq<seq<ShortestPath>>, p: Pick)
    requires Segments(via, k, segments) && via.forced != [] && InBox(SizesOf(segments), p)
    ensures var t, path := WholeTask(via), Stitched(segments, p);
            && Accepts(t, path) && Visits(path, via.forced)
            && (ValidPick(segments, p) <==> Good(t, path))
            && (via.opts.turn.NonNegative() ==> Lower(segments, p) <= CostOf(t, path))
            && (!via.opts.turn.enabled ==> Lower(segments, p) == CostOf(t, path))
  {
    hide HopParts, Join, Vertices, WholeTask, Visits, TotalOf, Accepts, Simple, SumCost, Segments, PartsOf;
    PickIsHopParts(via, k, segments, p);
    assert |PartsOf(segments, p)| == |via.forced| + 1 by { SegmentsSize(via, k, segments); }
    JoinIsPriced(via, PartsOf(segments, p));
    WholeJoinVisits(via, PartsOf(segments, p));
  }

  lemma SegmentsSize(via: Via, k: int, segments: seq<seq<ShortestPath>>)
    requires Segments(via, k, segments)
    ensures |segments| == |via.forced| + 1 && forall h :: 0 <= h < |SizesOf(segments)| ==> SizesOf(segments)[h] > 0
  {
  }

  /** Different valid picks stitch to different paths. */
  lemma PicksDiffer(via: Via, k: int, segments: seq<seq<ShortestPath>>, p: Pick, q: Pick)
    requires Segments(via, k, segments) && ValidPick(segments, p) && InBox(SizesOf(segments), q)
    requires Stitched(segments, p) == Stitched(segments, q)
    ensures p == q
  {
    hide Join, Vertices, Simple, HopParts;
    PickIsHopParts(via, k, segments, p);
    PickIsHopParts(via, k, segments, q);
    forall h | 0 <= h < |p|
      ensures p[h] == q[h]
    {
      JoinDetermines(via, PartsOf(segments, p), PartsOf(segments, q), h);
      SameVerticesSameIndex(HopTask(via, h), k, segments[h], p[h], q[h]);
    }
  }

  lemma SameVerticesSameIndex(t: Task, k: int, seg: seq<ShortestPath>, i: nat, j: nat)
    requires KShortest(t, k, seg) && i < |seg| && j < |seg| && seg[i].vertices == seg[j].vertices
    ensures i == j
  {
  }

  /** Raising indices never lowers the bound. */
  lemma LowerGrows(via: Via, k: int, segments: seq<seq<ShortestPath>>, p: Pick, q: Pick)
    requires Segments(via, k, segments) && InBox(SizesOf(segments), p) && InBox(SizesOf(segments), q)
    requires forall h :: 0 <= h < |p| ==> p[h] <= q[h]
    ensures Lower(segments, p) <= Lower(segments, q)
  {
    hide KShortest, HopTask, SumCost;
    var a, b := PartsOf(segments, p), PartsOf(segments, q);
    forall h | 0 <= h < |segments|
      ensures a[h].cost <= b[h].cost
    {
      assert CostSorted(segments[h]);
      assert p[h] <= q[h];
    }
    SumGrows(a, b);
  }

  lemma {:induction false} SumGrows(a: seq<ShortestPath>, b: seq<ShortestPath>)
    requires |a| == |b| && forall h :: 0 <= h < |a| ==> a[h].cost <= b[h].cost
    ensures SumCost(a) <= SumCost(b)
  {
    if a != [] {
      SumGrows(a[..|a| - 1], b[..|b| - 1]);
    }
  }

  // ---- The frontier ---------------------------------------------------------------------------

  datatype PickItem = PickItem(lower: real, pick: Pick, last: nat)

  ghost predicate FrontierOk(segments: seq<seq<ShortestPath>>, frontier: seq<PickItem>) {
    && (forall i :: 0 <= i < |frontier| ==> ItemOk(segments, frontier[i]))
    && (forall i, j :: 0 <= i < j < |frontier| ==> frontier[i].pick != frontier[j].pick)
  }

  ghost predicate ItemOk(segments: seq<seq<ShortestPath>>, item: PickItem) {
    && InBox(SizesOf(segments), item.pick) && item.lower == Lower(segments, item.pick)
    && item.last == LastAdvanced(item.pick)
  }

  ghost function Picks(frontier: seq<PickItem>): (s: set<Pick>)
    ensures forall p :: p in s <==> exists i :: 0 <= i < |frontier| && frontier[i].pick == p
  {
    set i | 0 <= i < |frontier| :: frontier[i].pick
  }

  method PopFrontier(segments: seq<seq<ShortestPath>>, frontier: seq<PickItem>) returns (item: PickItem, rest: seq<PickItem>)
    requires FrontierOk(segments, frontier) && frontier != []
    ensures ItemOk(segments, item) && item.pick in Picks(frontier) && item in frontier
    ensures FrontierOk(segments, rest) && Picks(rest) == Picks(frontier) - {item.pick}
    ensures forall x :: x in frontier ==> item.lower <= x.lower
    ensures forall x :: x in rest ==> x in frontier
  {
    hide ItemOk, FrontierOk, Picks;
    var least := 0;
    for i := 1 to |frontier|
      invariant 0 <= least < |frontier|
      invariant forall j :: 0 <= j < i ==> frontier[least].lower <= frontier[j].lower
    {
      if frontier[i].lower < frontier[least].lower {
        least := i;
      }
    }
    item := frontier[least];
    rest := frontier[..least] + frontier[least + 1..];
    RemovalKeeps(segments, frontier, least);
    RemovalPicks(segments, frontier, least);
  }

  lemma RemovalKeeps(segments: seq<seq<ShortestPath>>, frontier: seq<PickItem>, at: nat)
    requires FrontierOk(segments, frontier) && at < |frontier|
    ensures ItemOk(segments, frontier[at]) && FrontierOk(segments, frontier[..at] + frontier[at + 1..])
  {
    hide ItemOk;
    var rest := frontier[..at] + frontier[at + 1..];
    assert forall i :: 0 <= i < |rest| ==> rest[i] == frontier[if i < at then i else i + 1];
  }

  lemma RemovalPicks(segments: seq<seq<ShortestPath>>, frontier: seq<PickItem>, at: nat)
    requires FrontierOk(segments, frontier) && at < |frontier|
    ensures frontier[at].pick in Picks(frontier)
    ensures Picks(frontier[..at] + frontier[at + 1..]) == Picks(frontier) - {frontier[at].pick}
  {
    hide ItemOk;
    var rest := frontier[..at] + frontier[at + 1..];
    forall p
      ensures p in Picks(rest) <==> p in Picks(frontier) && p != frontier[at].pick
    {
      if p in Picks(frontier) && p != frontier[at].pick {
        var i :| 0 <= i < |frontier| && frontier[i].pick == p;
        assert rest[if i < at then i else i - 1].pick == p;
      }
      if p in Picks(rest) {
        var i :| 0 <= i < |rest| && rest[i].pick == p;
        assert frontier[if i < at then i else i + 1].pick == p;
      }
    }
  }

  method LowerOf(segments: seq<seq<ShortestPath>>, p: Pick) returns (sum: real)
    requires InBox(SizesOf(segments), p)
    ensures sum == Lower(segments, p)
  {
    sum := 0.0;
    ghost var parts := PartsOf(segments, p);
    for h := 0 to |segments|
      invariant sum == SumCost(parts[..h])
    {
      assert parts[..h + 1][..h] == parts[..h];
      sum := sum + segments[h][p[h]].cost;
    }
    assert parts[..|segments|] == parts;
  }

  /** Advances the pick at every hop from the last advanced one on. */
  method PushChildren(ghost via: Via, ghost k: int, segments: seq<seq<ShortestPath>>, frontier: seq<PickItem>,
                      item: PickItem, ghost explored: set<Pick>)
    returns (out: seq<PickItem>)
    requires Segments(via, k, segments)
    requires FrontierOk(segments, frontier) && ItemOk(segments, item)
    requires Explores(SizesOf(segments), explored, Picks(frontier) + {item.pick}) && item.pick !in Picks(frontier)
    ensures FrontierOk(segments, out)
    ensures Picks(out) == Picks(frontier) + Children(SizesOf(segments), item.pick, LastAdvanced(item.pick), |item.pick|)
    ensures forall x :: x in out ==> x in frontier || item.lower <= x.lower
  {
    hide *;
    out := frontier;
    ghost var p, sizes := item.pick, SizesOf(segments);
    ItemFacts(segments, item);
    ChildrenStart(sizes, p);
    for h := item.last to |segments|
      invariant FrontierOk(segments, out)
      invariant Picks(out) == Picks(frontier) + Children(sizes, p, LastAdvanced(p), h)
      invariant forall x :: x in out ==> x in frontier || item.lower <= x.lower
    {
      ChildrenGrow(sizes, p, LastAdvanced(p), h);
      if item.pick[h] + 1 < |segments[h]| {
        var next := item.pick[h := item.pick[h] + 1];
        ChildFacts(segments, item, h);
        ChildrenAreNew(sizes, explored, Picks(frontier) + {p}, p, h);
        ChildNotYet(sizes, p, LastAdvanced(p), h);
        var lower := LowerOf(segments, next);
        LowerGrows(via, k, segments, p, next);
        var child := PickItem(lower, next, h);
        IsItem(segments, child);
        PushKeeps(segments, out, child);
        out := out + [child];
      }
    }
  }

  lemma ItemFacts(segments: seq<seq<ShortestPath>>, item: PickItem)
    requires ItemOk(segments, item)
    ensures |item.pick| == |segments| == |SizesOf(segments)| && item.last == LastAdvanced(item.pick) <= |segments|
    ensures InBox(SizesOf(segments), item.pick) && item.lower == Lower(segments, item.pick)
  {
  }

  lemma IsItem(segments: seq<seq<ShortestPath>>, item: PickItem)
    requires InBox(SizesOf(segments), item.pick) && item.lower == Lower(segments, item.pick)
    requires item.last == LastAdvanced(item.pick)
    ensures ItemOk(segments, item)
  {
  }

  lemma ChildFacts(segments: seq<seq<ShortestPath>>, item: PickItem, h: nat)
    requires ItemOk(segments, item) && item.last <= h < |item.pick| && item.pick[h] + 1 < |segments[h]|
    ensures var next := item.pick[h := item.pick[h] + 1];
            && InBox(SizesOf(segments), next) && LastAdvanced(next) == h
            && forall j :: 0 <= j < |next| ==> item.pick[j] <= next[j]
    ensures item.pick[h] + 1 < SizesOf(segments)[h]
  {
    hide LastAdvanced, Parent, Lower;
    ChildHasParent(item.pick, h);
  }

  lemma ChildrenStart(sizes: Sizes, p: Pick)
    requires |p| == |sizes| && LastAdvanced(p) <= |p|
    ensures Children(sizes, p, LastAdvanced(p), LastAdvanced(p)) == {}
  {
    hide LastAdvanced;
  }

  lemma ChildrenGrow(sizes: Sizes, p: Pick, from: nat, h: nat)
    requires |p| == |sizes| && from <= h < |p|
    ensures Children(sizes, p, from, h + 1) ==
            Children(sizes, p, from, h) + if p[h] + 1 < sizes[h] then {p[h := p[h] + 1]} else {}
    ensures Children(sizes, p, from, from) == {}
  {
  }

  lemma ChildNotYet(sizes: Sizes, p: Pick, from: nat, h: nat)
    requires |p| == |sizes| && from <= h < |p|
    ensures p[h := p[h] + 1] !in Children(sizes, p, from, h)
  {
    forall j: nat | from <= j < h
      ensures p[j := p[j] + 1] != p[h := p[h] + 1]
    {
      assert p[j := p[j] + 1][h] == p[h];
    }
  }

  lemma PushKeeps(segments: seq<seq<ShortestPath>>, frontier: seq<PickItem>, item: PickItem)
    requires FrontierOk(segments, frontier) && ItemOk(segments, item) && item.pick !in Picks(frontier)
    ensures FrontierOk(segments, frontier + [item]) && Picks(frontier + [item]) == Picks(frontier) + {item.pick}
  {
    hide ItemOk;
    var out := frontier + [item];
    forall p
      ensures p in Picks(out) <==> p in Picks(frontier) || p == item.pick
    {
      if p in Picks(frontier) {
        var i :| 0 <= i < |frontier| && frontier[i].pick == p;
        assert out[i].pick == p;
      }
      if p == item.pick {
        assert out[|frontier|].pick == p;
      }
    }
  }

  // ---- Ready routes ---------------------------------------------------------------------------

  predicate RouteBefore(a: ShortestPath, b: ShortestPath) {
    if a.cost != b.cost then a.cost < b.cost else LexLess(a.vertices, b.vertices)
  }

  /** Puts a route into the ready queue, cheapest first. */
  method PushReady(ready: seq<ShortestPath>, r: ShortestPath) returns (out: seq<ShortestPath>, ghost k: nat)
    requires CostSorted(ready)
    ensures k <= |ready| && out == ready[..k] + [r] + ready[k..] && CostSorted(out)
  {
    var i := 0;
    while i < |ready| && RouteBefore(ready[i], r)
      invariant 0 <= i <= |ready|
      invariant forall j :: 0 <= j < i ==> ready[j].cost <= r.cost
    {
      i := i + 1;
    }
    k := i;
    out := ready[..i] + [r] + ready[i..];
  }

  /** Emitted and waiting routes are exactly the valid stitches of the explored picks, each once. */
  ghost predicate Merged(via: Via, segments: seq<seq<ShortestPath>>, explored: set<Pick>,
                         results: seq<ShortestPath>, ready: seq<ShortestPath>) {
    && (forall r :: r in results || r in ready ==>
          Priced(WholeTask(via), r) && Visits(r.vertices, via.forced) && FromPick(segments, explored, r.vertices))
    && (forall p :: p in explored && ValidPick(segments, p) ==>
          Returned(results, Stitched(segments, p)) || Returned(ready, Stitched(segments, p)))
    && DistinctRoutes(results + ready)
  }

  ghost predicate FromPick(segments: seq<seq<ShortestPath>>, explored: set<Pick>, path: Path) {
    exists p :: p in explored && ValidPick(segments, p) && path == Stitched(segments, p)
  }

  /** Emitted routes ascend, none dearer than a waiting one, nor than any bound still open for exploring. */
  ghost predicate Ordered(results: seq<ShortestPath>, ready: seq<ShortestPath>, frontier: seq<PickItem>, exploring: bool) {
    && CostSorted(results) && CostSorted(ready)
    && (forall r, q :: r in results && q in ready ==> r.cost <= q.cost)
    && (exploring ==> forall r, x :: r in results && x in frontier ==> r.cost <= x.lower)
  }

  /** What the merge loop keeps between rounds. */
  ghost predicate Merging(via: Via, k: int, segments: seq<seq<ShortestPath>>, explored: set<Pick>, count: nat,
                          frontier: seq<PickItem>, results: seq<ShortestPath>, ready: seq<ShortestPath>) {
    && Segments(via, k, segments) && via.forced != [] && via.opts.turn.NonNegative()
    && Explores(SizesOf(segments), explored, Picks(frontier)) && FrontierOk(segments, frontier)
    && |explored| == count <= MAX_STITCHED_PICKS
    && Merged(via, segments, explored, results, ready)
    && Ordered(results, ready, frontier, count < MAX_STITCHED_PICKS)
  }

  lemma MergingStarts(via: Via, k: int, segments: seq<seq<ShortestPath>>, root: PickItem)
    requires Segments(via, k, segments) && via.forced != [] && via.opts.turn.NonNegative()
    requires root.pick == Zero(|segments|) && root.last == 0
    requires InBox(SizesOf(segments), root.pick) ==> root.lower == Lower(segments, root.pick)
    ensures InBox(SizesOf(segments), root.pick) && Merging(via, k, segments, {}, 0, [root], [], [])
  {
    hide Segments, Lower, Explores, Merged, Ordered, Picks, TurnPenalty.NonNegative, LastAdvanced, FrontierOk;
    SegmentsSize(via, k, segments);
    ExploreStarts(SizesOf(segments));
    OnePick(root);
    NothingMerged(via, segments, [root], 0 < MAX_STITCHED_PICKS);
    FrontierStarts(segments, root);
  }

  lemma FrontierStarts(segments: seq<seq<ShortestPath>>, root: PickItem)
    requires InBox(SizesOf(segments), root.pick) && root.lower == Lower(segments, root.pick)
    requires root.last == LastAdvanced(root.pick)
    ensures FrontierOk(segments, [root])
  {
    hide Lower, LastAdvanced, InBox;
    assert ItemOk(segments, root);
  }

  lemma NothingMerged(via: Via, segments: seq<seq<ShortestPath>>, frontier: seq<PickItem>, exploring: bool)
    ensures Merged(via, segments, {}, [], []) && Ordered([], [], frontier, exploring)
  {
    hide Priced, Visits, FromPick, Returned;
  }

  lemma OnePick(root: PickItem)
    ensures Picks([root]) == {root.pick}
  {
    assert [root][0].pick == root.pick;
  }

  // ---- Emitting -------------------------------------------------------------------------------

  lemma EmitKeepsOrder(results: seq<ShortestPath>, ready: seq<ShortestPath>, frontier: seq<PickItem>, exploring: bool)
    requires Ordered(results, ready, frontier, exploring) && ready != []
    requires exploring ==> forall x :: x in frontier ==> ready[0].cost <= x.lower
    ensures Ordered(results + [ready[0]], ready[1..], frontier, exploring)
  {
    var out := results + [ready[0]];
    forall i, j | 0 <= i < j < |out|
      ensures out[i].cost <= out[j].cost
    {
      assert i < |results| && out[i] in results;
    }
    forall r, q | r in out && q in ready[1..]
      ensures r.cost <= q.cost
    {
      assert q in ready;
    }
  }

  lemma EmitKeepsMerged(via: Via, segments: seq<seq<ShortestPath>>, explored: set<Pick>,
                        results: seq<ShortestPath>, ready: seq<ShortestPath>)
    requires Merged(via, segments, explored, results, ready) && ready != []
    ensures Merged(via, segments, explored, results + [ready[0]], ready[1..])
  {
    hide Priced, Visits, FromPick, ValidPick, Stitched, WholeTask;
    assert results + ready == (results + [ready[0]]) + ready[1..];
    forall path
      ensures Returned(results, path) || Returned(ready, path) ==>
                Returned(results + [ready[0]], path) || Returned(ready[1..], path)
    {
      MovedIsReturned(results, ready, path);
    }
    assert forall r :: r in ready[1..] ==> r in ready;
  }

  lemma MovedIsReturned(results: seq<ShortestPath>, ready: seq<ShortestPath>, path: Path)
    requires ready != []
    ensures Returned(results, path) || Returned(ready, path) ==>
              Returned(results + [ready[0]], path) || Returned(ready[1..], path)
  {
    var out := results + [ready[0]];
    if Returned(results, path) {
      var i :| 0 <= i < |results| && results[i].vertices == path;
      assert out[i].vertices == path;
    } else if Returned(ready, path) {
      var i :| 0 <= i < |ready| && ready[i].vertices == path;
      if i == 0 {
        assert out[|results|].vertices == path;
      } else {
        assert ready[1..][i - 1].vertices == path;
      }
    }
  }

  // ---- Exploring ------------------------------------------------------------------------------

  /** The ready queue after one more stitch. */
  ghost predicate ReadyAfter(ready: seq<ShortestPath>, r: ShortestPath, out: seq<ShortestPath>, at: nat) {
    if r.found then at <= |ready| && out == ready[..at] + [r] + ready[at..] else out == ready
  }

  lemma InsertedIsReturned(ready: seq<ShortestPath>, r: ShortestPath, out: seq<ShortestPath>, at: nat, path: Path)
    requires ReadyAfter(ready, r, out, at)
    ensures Returned(ready, path) || (r.found && r.vertices == path) ==> Returned(out, path)
  {
    if Returned(ready, path) {
      var i :| 0 <= i < |ready| && ready[i].vertices == path;
      assert out[if r.found && i >= at then i + 1 else i].vertices == path;
    } else if r.found && r.vertices == path {
      assert out[at].vertices == path;
    }
  }

  /** No two routes share their vertices. */
  ghost predicate DistinctRoutes(rs: seq<ShortestPath>) {
    forall i, j :: 0 <= i < j < |rs| ==> rs[i].vertices != rs[j].vertices
  }

  lemma InsertDistinct(rs: seq<ShortestPath>, r: ShortestPath, m: nat)
    requires DistinctRoutes(rs) && m <= |rs| && forall q :: q in rs ==> q.vertices != r.vertices
    ensures DistinctRoutes(rs[..m] + [r] + rs[m..])
  {
    var out := rs[..m] + [r] + rs[m..];
    forall i, j | 0 <= i < j < |out|
      ensures out[i].vertices != out[j].vertices
    {
      var i', j' := if i > m then i - 1 else i, if j > m then j - 1 else j;
      if i == m {
        assert rs[j'] in rs;
      } else if j == m {
        assert rs[i'] in rs;
      }
    }
  }

  lemma InsertKeepsDistinct(results: seq<ShortestPath>, ready: seq<ShortestPath>, r: ShortestPath,
                            out: seq<ShortestPath>, at: nat)
    requires DistinctRoutes(results + ready) && ReadyAfter(ready, r, out, at)
    requires r.found ==> forall q :: q in results || q in ready ==> q.vertices != r.vertices
    ensures DistinctRoutes(results + out)
  {
    if r.found {
      var all, m := results + ready, |results| + at;
      InsertDistinct(all, r, m);
      assert all[..m] + [r] + all[m..] == results + out;
    }
  }

  /** Stitching one more pick adds its path when it is valid, and nothing else. */
  lemma ExploreKeepsMerged(via: Via, k: int, segments: seq<seq<ShortestPath>>, explored: set<Pick>, p: Pick,
                           results: seq<ShortestPath>, ready: seq<ShortestPath>,
                           r: ShortestPath, out: seq<ShortestPath>, at: nat)
    requires Segments(via, k, segments) && via.forced != []
    requires Merged(via, segments, explored, results, ready) && ReadyAfter(ready, r, out, at)
    requires p !in explored && InBox(SizesOf(segments), p) && (forall q :: q in explored ==> InBox(SizesOf(segments), q))
    requires r.found <==> ValidPick(segments, p)
    requires r.found ==> r.vertices == Stitched(segments, p) && Priced(WholeTask(via), r) && Visits(r.vertices, via.forced)
    ensures Merged(via, segments, explored + {p}, results, out)
  {
    hide Priced, Visits, ValidPick, Stitched, WholeTask, Segments, KShortest, Returned;
    var explored' := explored + {p};
    forall q | r.found && (q in results || q in ready)
      ensures q.vertices != r.vertices
    {
      var o :| o in explored && ValidPick(segments, o) && q.vertices == Stitched(segments, o);
      if q.vertices == r.vertices {
        PicksDiffer(via, k, segments, p, o);
      }
    }
    InsertKeepsDistinct(results, ready, r, out, at);
    forall q | q in results || q in out
      ensures Priced(WholeTask(via), q) && Visits(q.vertices, via.forced) && FromPick(segments, explored', q.vertices)
    {
      if q in results || q in ready {
        var o :| o in explored && ValidPick(segments, o) && q.vertices == Stitched(segments, o);
        assert o in explored';
      } else {
        assert q == r && p in explored';
      }
    }
    forall o | o in explored' && ValidPick(segments, o)
      ensures Returned(results, Stitched(segments, o)) || Returned(out, Stitched(segments, o))
    {
      InsertedIsReturned(ready, r, out, at, Stitched(segments, o));
    }
  }

  lemma ExploreKeepsOrder(results: seq<ShortestPath>, ready: seq<ShortestPath>, frontier: seq<PickItem>, item: PickItem,
                          r: ShortestPath, out: seq<ShortestPath>, at: nat, next: seq<PickItem>, exploring: bool)
    requires Ordered(results, ready, frontier, true) && item in frontier
    requires ReadyAfter(ready, r, out, at) && CostSorted(out)
    requires r.found ==> item.lower <= r.cost
    requires forall x :: x in next ==> x in frontier || item.lower <= x.lower
    ensures Ordered(results, out, next, exploring)
  {
    forall q, x | q in results && x in out
      ensures q.cost <= x.cost
    {
      assert x in ready || x == r;
    }
  }

  // ---- The merge loop -------------------------------------------------------------------------

  /** The product fits the pick budget, so the merge can never be cut short. */
  ghost predicate FitsBudget(segments: seq<seq<ShortestPath>>) {
    BoxSize(SizesOf(segments)) <= MAX_STITCHED_PICKS
  }

  /** The budget did not cut the enumeration short. */
  ghost predicate WithinBudget(segments: seq<seq<ShortestPath>>, picks: nat) {
    picks < MAX_STITCHED_PICKS || FitsBudget(segments)
  }

  /** No valid pick outside the first `firm` routes stitches to anything cheaper than one of them. */
  ghost predicate Firm(via: Via, segments: seq<seq<ShortestPath>>, results: seq<ShortestPath>, firm: nat) {
    && firm <= |results|
    && forall p :: ValidPick(segments, p) && !Returned(results[..firm], Stitched(segments, p)) ==>
         NoneDearer(via, results[..firm], Stitched(segments, p))
  }

  /** At most k distinct valid stitches in ascending cost, each at the price of its path. */
  ghost predicate SomeStitches(via: Via, k: int, segments: seq<seq<ShortestPath>>, results: seq<ShortestPath>) {
    && |results| <= k && CostSorted(results) && DistinctRoutes(results)
    && forall r :: r in results ==>
         Priced(WholeTask(via), r) && Visits(r.vertices, via.forced)
         && exists p :: ValidPick(segments, p) && r.vertices == Stitched(segments, p)
  }

  /**
   * The stitches returned after exploring so many picks. The first `firm` routes, those emitted
   * before the budget ran out, are never undercut; within the budget that is all of them, and fewer than k are all there are.
   */
  ghost predicate BestStitches(via: Via, k: int, segments: seq<seq<ShortestPath>>, picks: nat, firm: nat, results: seq<ShortestPath>) {
    && SomeStitches(via, k, segments, results) && picks <= MAX_STITCHED_PICKS
    && Firm(via, segments, results, firm)
    && (WithinBudget(segments, picks) ==> firm == |results|)
    && (WithinBudget(segments, picks) && |results| < k ==>
          forall p :: ValidPick(segments, p) ==> Returned(results, Stitched(segments, p)))
  }

  ghost predicate NoneDearer(via: Via, results: seq<ShortestPath>, path: Path) {
    forall r :: r in results ==> r.cost <= CostOf(WholeTask(via), path)
  }

  /** Stitches the popped pick, queues the route if it is valid, and queues the pick's children. */
  method ExplorePick(via: Via, t: Task, ghost k: int, segments: seq<seq<ShortestPath>>, ghost explored: set<Pick>, count: nat,
                     frontier: seq<PickItem>, ghost results: seq<ShortestPath>, ready: seq<ShortestPath>)
    returns (frontier': seq<PickItem>, ready': seq<ShortestPath>, ghost explored': set<Pick>)
    requires t == WholeTask(via) && Merging(via, k, segments, explored, count, frontier, results, ready)
    requires frontier != [] && count < MAX_STITCHED_PICKS
    ensures Merging(via, k, segments, explored', count + 1, frontier', results, ready')
  {
    hide Segments, Explores, FrontierOk, Merged, Ordered, Priced, Visits, Stitched, ValidPick, Lower, Seamed;
    hide TurnPenalty.NonNegative, WholeTask, RecostOf, SizesOf, Picks;
    var item, rest := PopFrontier(segments, frontier);
    ghost var p := item.pick;
    PopFacts(segments, explored, frontier, item, rest);
    var stitched := StitchPick(via, t, k, segments, item.pick);
    ghost var at := 0;
    if stitched.found {
      ready', at := PushReady(ready, stitched) by { OrderedIsSorted(results, ready, frontier, true); }
    } else {
      ready' := ready;
      OrderedIsSorted(results, ready, frontier, true);
    }
    frontier' := PushChildren(via, k, segments, rest, item, explored);
    explored' := explored + {p};
    ExploreStep(SizesOf(segments), explored, Picks(frontier), p);
    ExploreKeepsMerged(via, k, segments, explored, p, results, ready, stitched, ready', at);
    ExploreKeepsOrder(results, ready, frontier, item, stitched, ready', at, frontier', count + 1 < MAX_STITCHED_PICKS);
  }

  lemma OrderedIsSorted(results: seq<ShortestPath>, ready: seq<ShortestPath>, frontier: seq<PickItem>, exploring: bool)
    requires Ordered(results, ready, frontier, exploring)
    ensures CostSorted(results) && CostSorted(ready)
  {
  }

  lemma PopFacts(segments: seq<seq<ShortestPath>>, explored: set<Pick>, frontier: seq<PickItem>, item: PickItem, rest: seq<PickItem>)
    requires Explores(SizesOf(segments), explored, Picks(frontier)) && item.pick in Picks(frontier)
    requires Picks(rest) == Picks(frontier) - {item.pick}
    ensures Picks(rest) + {item.pick} == Picks(frontier) && item.pick !in explored
    ensures InBox(SizesOf(segments), item.pick) && |item.pick| == |SizesOf(segments)| == |segments|
    ensures forall q :: q in explored ==> InBox(SizesOf(segments), q)
    ensures |explored + {item.pick}| == |explored| + 1
  {
  }

  /** Stitching a pick succeeds exactly when the pick is valid, at no less than its lower bound. */
  method StitchPick(via: Via, t: Task, ghost k: int, segments: seq<seq<ShortestPath>>, p: Pick) returns (r: ShortestPath)
    requires t == WholeTask(via) && Segments(via, k, segments) && via.forced != []
    requires InBox(SizesOf(segments), p)
    ensures r.found <==> ValidPick(segments, p)
    ensures r.found ==> r.vertices == Stitched(segments, p) && Priced(t, r) && Visits(r.vertices, via.forced)
    ensures r.found && via.opts.turn.NonNegative() ==> Lower(segments, p) <= r.cost
  {
    hide Segments, HopTask, Join, Vertices, WholeTask, Visits, RecostOf, TotalOf, KShortest, WalkOf, SumCost, Simple, TurnPenalty.NonNegative;
    var parts: seq<Path> := [];
    ghost var hops := PartsOf(segments, p);
    for h := 0 to |segments|
      invariant |parts| == h && forall j :: 0 <= j < h ==> parts[j] == hops[j].vertices
    {
      parts := parts + [segments[h][p[h]].vertices];
    }
    assert Vertices(hops) == parts by { SameVertices(hops, parts); }
    PickIsHopParts(via, k, segments, p);
    SegmentsSize(via, k, segments);
    HopPartsSeamed(via, hops, parts);
    r := StitchAndCost(t, parts);
    ValidPickIsPriced(via, k, segments, p);
    AcceptedIsRecosted(t, Stitched(segments, p));
  }

  lemma SameVertices(hops: seq<ShortestPath>, parts: seq<Path>)
    requires |parts| == |hops| && forall j :: 0 <= j < |hops| ==> parts[j] == hops[j].vertices
    ensures Vertices(hops) == parts
  {
  }

  lemma HopPartsSeamed(via: Via, hops: seq<ShortestPath>, parts: seq<Path>)
    requires HopParts(via, hops) && |parts| == |hops| && forall j :: 0 <= j < |hops| ==> parts[j] == hops[j].vertices
    ensures Seamed(parts) && forall h :: 0 <= h < |parts| ==> InRange(WholeTask(via), parts[h])
  {
    hide HopTask, WholeTask, Priced, WalkOf;
    forall h | 0 <= h < |parts|
      ensures parts[h] != [] && InRange(WholeTask(via), parts[h])
      ensures h > 0 ==> parts[h - 1] != [] && parts[h][0] == parts[h - 1][|parts[h - 1]| - 1]
    {
      HopEnds(via, h, hops[h]);
      HopTables(via, h, 0);
      WalkInRange(HopTask(via, h), parts[h]);
      if h > 0 {
        HopEnds(via, h - 1, hops[h - 1]);
      }
    }
  }

  /** A good path's re-cost is its price; a path that is accepted but repeats a vertex is simply not good. */
  lemma AcceptedIsRecosted(t: Task, p: Path)
    requires Accepts(t, p)
    ensures RecostOf(t, p) == TotalOf(t, p) && TotalOf(t, p).Some? && CostOf(t, p) == TotalOf(t, p).value.cost && p != []
  {
    hide RecostOf, WalkOf;
    WalkInRange(t, p);
    RecostAgreesWithSearch(t, p);
  }

  lemma LowestStays(via: Via, k: int, segments: seq<seq<ShortestPath>>, explored: set<Pick>, count: nat,
                    frontier: seq<PickItem>, results: seq<ShortestPath>, ready: seq<ShortestPath>, lowest: real)
    requires Merging(via, k, segments, explored, count, frontier, results, ready) && ready != []
    requires frontier != [] && count < MAX_STITCHED_PICKS ==> ready[0].cost <= lowest
    requires forall x :: x in frontier ==> lowest <= x.lower
    ensures Merging(via, k, segments, explored, count, frontier, results + [ready[0]], ready[1..])
  {
    hide Segments, Explores, FrontierOk, Merged, Ordered, TurnPenalty.NonNegative;
    EmitKeepsMerged(via, segments, explored, results, ready);
    EmitKeepsOrder(results, ready, frontier, count < MAX_STITCHED_PICKS);
  }

  /** The least bound waiting in the frontier. */
  method Lowest(frontier: seq<PickItem>) returns (lowest: real)
    ensures forall x :: x in frontier ==> lowest <= x.lower
    ensures frontier != [] ==> exists x :: x in frontier && x.lower == lowest
  {
    lowest := 0.0;
    for i := 0 to |frontier|
      invariant forall j :: 0 <= j < i ==> lowest <= frontier[j].lower
      invariant i > 0 ==> exists x :: x in frontier && x.lower == lowest
    {
      if i == 0 || frontier[i].lower < lowest {
        lowest := frontier[i].lower;
        assert frontier[i] in frontier;
      }
    }
  }

  /** Picks remain, and none of them may be explored. */
  ghost predicate CutShort(frontier: seq<PickItem>, count: nat) {
    frontier != [] && count == MAX_STITCHED_PICKS
  }

  /** When the loop stops the routes are the best stitches. */
  lemma MergeEnds(via: Via, k: nat, segments: seq<seq<ShortestPath>>, explored: set<Pick>, count: nat,
                  frontier: seq<PickItem>, results: seq<ShortestPath>, ready: seq<ShortestPath>, firm: nat)
    requires Merging(via, k, segments, explored, count, frontier, results, ready) && |results| <= k
    requires |results| < k ==> ready == [] && (frontier == [] || count == MAX_STITCHED_PICKS)
    requires Firm(via, segments, results, firm) && (!CutShort(frontier, count) ==> firm == |results|)
    ensures SomeStitches(via, k, segments, results) && BestStitches(via, k, segments, count, firm, results)
  {
    hide Segments, Explores, FrontierOk, Stitched, ValidPick, TurnPenalty.NonNegative, WholeTask, Priced, Visits, CostOf, Firm;
    assert DistinctRoutes(results) by { DistinctFront(results, ready); }
    forall r | r in results
      ensures exists p :: ValidPick(segments, p) && r.vertices == Stitched(segments, p)
    {
      var p :| p in explored && ValidPick(segments, p) && r.vertices == Stitched(segments, p);
    }
    if WithinBudget(segments, count) {
      FitsMeansFinished(segments, explored, frontier, count);
      if |results| < k {
        forall p | ValidPick(segments, p)
          ensures Returned(results, Stitched(segments, p))
        {
          AllExplored(segments, explored, frontier, p);
        }
      }
    }
  }

  lemma AllExplored(segments: seq<seq<ShortestPath>>, explored: set<Pick>, frontier: seq<PickItem>, p: Pick)
    requires Explores(SizesOf(segments), explored, Picks(frontier)) && frontier == [] && ValidPick(segments, p)
    ensures p in explored
  {
    hide Explores, Stitched;
    if p !in explored {
      var a := WaitingAncestor(SizesOf(segments), explored, Picks(frontier), p);
    }
  }

  lemma DistinctFront(results: seq<ShortestPath>, ready: seq<ShortestPath>)
    requires DistinctRoutes(results + ready)
    ensures DistinctRoutes(results)
  {
    var all := results + ready;
    assert forall i :: 0 <= i < |results| ==> all[i] == results[i];
  }

  /** Until the budget cuts in, a valid stitch that was not emitted costs at least as much as every one that was. */
  lemma Unreturned(via: Via, k: nat, segments: seq<seq<ShortestPath>>, explored: set<Pick>, count: nat,
                   frontier: seq<PickItem>, results: seq<ShortestPath>, ready: seq<ShortestPath>, p: Pick)
    requires Merging(via, k, segments, explored, count, frontier, results, ready) && !CutShort(frontier, count)
    requires ValidPick(segments, p) && !Returned(results, Stitched(segments, p))
    ensures NoneDearer(via, results, Stitched(segments, p))
  {
    hide Segments, Stitched, Explores, FrontierOk, TurnPenalty.NonNegative, WholeTask, Visits, CostOf, Simple, Lower;
    var path := Stitched(segments, p);
    if p in explored {
      ReadyIsDearer(via, segments, explored, results, ready, p, frontier, count < MAX_STITCHED_PICKS);
    } else {
      var a := WaitingAncestor(SizesOf(segments), explored, Picks(frontier), p);
      var i :| 0 <= i < |frontier| && frontier[i].pick == a;
      assert frontier[i] in frontier;
      WaitingIsDearer(via, k, segments, frontier, i, p);
    }
  }

  /** So as long as the budget has not cut in, everything emitted so far is firm. */
  lemma AllFirm(via: Via, k: nat, segments: seq<seq<ShortestPath>>, explored: set<Pick>, count: nat,
                frontier: seq<PickItem>, results: seq<ShortestPath>, ready: seq<ShortestPath>)
    requires Merging(via, k, segments, explored, count, frontier, results, ready) && !CutShort(frontier, count)
    ensures Firm(via, segments, results, |results|)
  {
    hide Merging, ValidPick, Stitched, NoneDearer, CutShort;
    assert results[..|results|] == results;
    forall p | ValidPick(segments, p) && !Returned(results, Stitched(segments, p))
      ensures NoneDearer(via, results, Stitched(segments, p))
    {
      Unreturned(via, k, segments, explored, count, frontier, results, ready, p);
    }
  }

  /** Emitting more leaves the firm front as it is. */
  lemma FirmStays(via: Via, segments: seq<seq<ShortestPath>>, results: seq<ShortestPath>, r: ShortestPath, firm: nat)
    requires Firm(via, segments, results, firm)
    ensures Firm(via, segments, results + [r], firm)
  {
    hide ValidPick, Stitched, NoneDearer, Returned;
    assert (results + [r])[..firm] == results[..firm];
  }

  lemma ReadyIsDearer(via: Via, segments: seq<seq<ShortestPath>>, explored: set<Pick>, results: seq<ShortestPath>,
                      ready: seq<ShortestPath>, p: Pick, frontier: seq<PickItem>, exploring: bool)
    requires Merged(via, segments, explored, results, ready) && Ordered(results, ready, frontier, exploring)
    requires p in explored && ValidPick(segments, p) && !Returned(results, Stitched(segments, p))
    ensures ready != [] && NoneDearer(via, results, Stitched(segments, p))
  {
    hide Stitched, ValidPick, Visits, WholeTask;
    var i :| 0 <= i < |ready| && ready[i].vertices == Stitched(segments, p);
    assert ready[i] in ready;
  }

  /** A product that fits the budget, or a budget not used up, never cuts the enumeration short. */
  lemma FitsMeansFinished(segments: seq<seq<ShortestPath>>, explored: set<Pick>, frontier: seq<PickItem>, count: nat)
    requires Explores(SizesOf(segments), explored, Picks(frontier)) && |explored| == count && WithinBudget(segments, count)
    ensures !CutShort(frontier, count)
  {
    if CutShort(frontier, count) {
      var x := frontier[0].pick;
      assert x in Picks(frontier) && x !in explored;
      ExploredFits(SizesOf(segments), explored + {x});
    }
  }

  lemma WaitingIsDearer(via: Via, k: nat, segments: seq<seq<ShortestPath>>, frontier: seq<PickItem>, i: nat, p: Pick)
    requires Segments(via, k, segments) && via.forced != [] && via.opts.turn.NonNegative()
    requires FrontierOk(segments, frontier) && i < |frontier| && ValidPick(segments, p)
    requires |frontier[i].pick| == |p| && forall h :: 0 <= h < |p| ==> frontier[i].pick[h] <= p[h]
    ensures frontier[i].lower <= CostOf(WholeTask(via), Stitched(segments, p))
  {
    hide Segments, Stitched, WholeTask, Visits, CostOf, Lower, Accepts, Good, TurnPenalty.NonNegative;
    assert ItemOk(segments, frontier[i]);
    LowerGrows(via, k, segments, frontier[i].pick, p);
    ValidPickIsPriced(via, k, segments, p);
  }

  /** Best-first enumeration of the product of hop alternatives. */
  method MergeHops(via: Via, t: Task, k: nat, segments: seq<seq<ShortestPath>>)
    returns (results: seq<ShortestPath>, ghost picks: nat, ghost firm: nat)
    requires t == WholeTask(via) && Segments(via, k, segments) && via.forced != [] && via.opts.turn.NonNegative()
    ensures SomeStitches(via, k, segments, results) && BestStitches(via, k, segments, picks, firm, results)
  {
    hide Segments, Merging, WholeTask, Lower, SomeStitches, BestStitches, TurnPenalty.NonNegative, Firm;
    SegmentsSize(via, k, segments);
    var root: Pick := seq(|segments|, _ => 0);
    assert root == Zero(|segments|);
    var lower := LowerOf(segments, root);
    var frontier := [PickItem(lower, root, 0)];
    results := [];
    var ready: seq<ShortestPath> := [];
    var count := 0;
    ghost var explored: set<Pick> := {};
    MergingStarts(via, k, segments, frontier[0]);
    AllFirm(via, k, segments, explored, count, frontier, results, ready);
    firm := 0;
    while |results| < k
      invariant |results| <= k && count <= MAX_STITCHED_PICKS
      invariant Merging(via, k, segments, explored, count, frontier, results, ready)
      invariant Firm(via, segments, results, firm) && (!CutShort(frontier, count) ==> firm == |results|)
      decreases k - |results| + MAX_STITCHED_PICKS - count
    {
      var canExplore := frontier != [] && count < MAX_STITCHED_PICKS;
      var lowest := Lowest(frontier);
      if ready != [] && (!canExplore || ready[0].cost <= lowest) {
        LowestStays(via, k, segments, explored, count, frontier, results, ready, lowest);
        FirmStays(via, segments, results, ready[0], firm);
        results, ready := results + [ready[0]], ready[1..];
        if !CutShort(frontier, count) {
          AllFirm(via, k, segments, explored, count, frontier, results, ready);
          firm := |results|;
        }
        continue;
      }
      if !canExplore {
        break;
      }
      frontier, ready, explored := ExplorePick(via, t, k, segments, explored, count, frontier, results, ready);
      count := count + 1;
    }
    MergeEnds(via, k, segments, explored, count, frontier, results, ready, firm);
    picks := count;
  }
}

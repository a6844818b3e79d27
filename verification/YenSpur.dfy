/** A spur search, carved out with bans, finds exactly the class it was meant for. */
module YenSpurs {
  import opened Numbers
  import opened NavGraphs
  import opened SearchModel
  import opened PathCosts
  import opened AStarInvariants
  import opened YenPartition

  // ---- Same edges under different bans --------------------------------------------------------

  ghost predicate SameEdges(t: Task, ts: Task) {
    && ts.graph == t.graph && ts.opts.constraints == t.opts.constraints
    && ts.opts.hasRequest == t.opts.hasRequest && ts.opts.turn == t.opts.turn
  }

  lemma {:induction false} SameScan(t: Task, ts: Task, u: int, v: int, k: nat)
    requires SameEdges(t, ts)
    ensures Scan(ts.graph, ts.opts, u, v, k) == Scan(t.graph, t.opts, u, v, k)
    decreases k
  {
    if t.graph.Has(u) && k > t.graph.EdgesBegin(u) {
      SameScan(t, ts, u, v, k - 1);
    }
  }

  lemma SameHop(t: Task, ts: Task, u: int, v: int)
    requires SameEdges(t, ts)
    ensures Hop(ts.graph, ts.opts, u, v) == Hop(t.graph, t.opts, u, v)
  {
    SameScan(t, ts, u, v, t.graph.EdgesEnd(u));
  }

  lemma SameExactness(t: Task, ts: Task)
    requires SameEdges(t, ts)
    ensures Exact(ts) == Exact(t)
  {
  }

  // ---- The spur at a vertex -------------------------------------------------------------------

  /** ts searches from the end of `root`, off the root's other vertices and off the taken continuations. */
  ghost predicate IsSpurTask(t: Task, ts: Task, accepted: seq<Path>, root: Path) {
    && SameEdges(t, ts) && root != []
    && (forall v :: ts.opts.nodeFilter.Blocks(v) <==> t.opts.nodeFilter.Blocks(v) || v in root[..|root| - 1])
    && (forall u, v :: t.graph.Has(u) && t.graph.Has(v) ==>
          (ts.opts.edgeFilter.Blocks(u, v) <==>
           t.opts.edgeFilter.Blocks(u, v) || (u == root[|root| - 1] && Taken(accepted, root, v))))
    && (forall v :: ts.SeedOf(v) == if v == root[|root| - 1] then 0.0 else -1.0)
    && (forall v :: ts.GoalSeedOf(v) ==
          if v == root[|root| - 1] && Taken(accepted, root, END) then -1.0 else t.GoalSeedOf(v))
    && ts.goalBearing == t.goalBearing && HeadingCarries(t, ts, root)
  }

  /** Two walks that would pay the same for the next turn. */
  ghost predicate SameHeading(t: Task, w: Walk, ws: Walk) {
    t.opts.turn.enabled ==> w.inbound == ws.inbound
  }

  /** The spur search starts on the heading the root arrives on. */
  ghost predicate HeadingCarries(t: Task, ts: Task, root: Path)
    requires root != []
  {
    WalkOf(t, root).Some? && t.opts.turn.enabled ==> ts.SourceBearingOf(root[|root| - 1]) == WalkOf(t, root).value.inbound
  }

  /** The whole path a spur tail completes. */
  ghost function Stitch(root: Path, tail: Path): Path {
    if root == [] then tail else root[..|root| - 1] + tail
  }

  /** A step of the tail is allowed in the spur search only if it is in the full search, and costs the same. */
  lemma StepLifts(t: Task, ts: Task, accepted: seq<Path>, root: Path, w: Walk, ws: Walk, u: int, v: int)
    requires IsSpurTask(t, ts, accepted, root) && t.graph.Has(u) && t.graph.Has(v)
    requires StepTo(ts, Some(ws), u, v).Some?
    ensures StepTo(t, Some(w), u, v).Some? && SameHeading(t, StepTo(t, Some(w), u, v).value, StepTo(ts, Some(ws), u, v).value)
    ensures SameHeading(t, w, ws) ==>
              StepTo(t, Some(w), u, v).value.cost - w.cost == StepTo(ts, Some(ws), u, v).value.cost - ws.cost
  {
    hide Hop;
    SameHop(t, ts, u, v);
  }

  lemma StepLowers(t: Task, ts: Task, accepted: seq<Path>, root: Path, w: Walk, ws: Walk, u: int, v: int)
    requires IsSpurTask(t, ts, accepted, root) && t.graph.Has(u) && t.graph.Has(v)
    requires StepTo(t, Some(w), u, v).Some?
    requires v !in root[..|root| - 1] && !(u == root[|root| - 1] && Taken(accepted, root, v))
    ensures StepTo(ts, Some(ws), u, v).Some? && SameHeading(t, StepTo(t, Some(w), u, v).value, StepTo(ts, Some(ws), u, v).value)
    ensures SameHeading(t, w, ws) ==>
              StepTo(t, Some(w), u, v).value.cost - w.cost == StepTo(ts, Some(ws), u, v).value.cost - ws.cost
  {
    hide Hop;
    SameHop(t, ts, u, v);
  }

  /** A walk of the spur search extends the root to a walk of the full search, adding its own cost, turns and all. */
  lemma {:induction false} WalkLifts(t: Task, ts: Task, accepted: seq<Path>, root: Path, tail: Path)
    requires IsSpurTask(t, ts, accepted, root) && WalkOf(t, root).Some? && WalkOf(ts, tail).Some?
    ensures tail[0] == root[|root| - 1] && WalkOf(t, Stitch(root, tail)).Some?
    ensures WalkOf(t, Stitch(root, tail)).value.cost == WalkOf(t, root).value.cost + WalkOf(ts, tail).value.cost
    ensures SameHeading(t, WalkOf(t, Stitch(root, tail)).value, WalkOf(ts, tail).value)
    decreases |tail|
  {
    hide StepTo, IsSpurTask, WalkOf, Stitch, SameHeading;
    SpurGraph(t, ts, accepted, root);
    WalkNotEmpty(ts, tail);
    if |tail| == 1 {
      SpurStart(t, ts, accepted, root, tail);
      StitchOne(root, tail);
    } else {
      var before := tail[..|tail| - 1];
      WalkBefore(ts, tail);
      WalkLifts(t, ts, accepted, root, before);
      WalkInRange(ts, tail);
      StitchGrows(root, tail);
      WalkUnfold(ts, tail);
      WalkUnfold(t, Stitch(root, tail));
      StepLifts(t, ts, accepted, root, WalkOf(t, Stitch(root, before)).value, WalkOf(ts, before).value,
                tail[|tail| - 2], tail[|tail| - 1]);
    }
  }

  lemma StitchOne(root: Path, tail: Path)
    requires root != [] && |tail| == 1 && tail[0] == root[|root| - 1]
    ensures Stitch(root, tail) == root
  {
  }

  lemma StitchGrows(root: Path, tail: Path)
    requires root != [] && |tail| > 1 && tail[0] == root[|root| - 1]
    ensures var p := Stitch(root, tail);
            && |p| > 1 && p[..|p| - 1] == Stitch(root, tail[..|tail| - 1])
            && p[|p| - 2] == tail[|tail| - 2] && p[|p| - 1] == tail[|tail| - 1]
  {
  }

  lemma WalkNotEmpty(t: Task, p: Path)
    requires WalkOf(t, p).Some?
    ensures p != []
  {
  }

  lemma SpurGraph(t: Task, ts: Task, accepted: seq<Path>, root: Path)
    requires IsSpurTask(t, ts, accepted, root)
    ensures ts.graph == t.graph && ts.opts.turn == t.opts.turn && SameEdges(t, ts) && root != []
  {
  }

  lemma SpurStart(t: Task, ts: Task, accepted: seq<Path>, root: Path, tail: Path)
    requires IsSpurTask(t, ts, accepted, root) && |tail| == 1 && WalkOf(ts, tail).Some?
    ensures tail[0] == root[|root| - 1] && WalkOf(ts, tail).value.cost == 0.0
    ensures WalkOf(t, root).Some? ==> SameHeading(t, WalkOf(t, root).value, WalkOf(ts, tail).value)
  {
  }

  lemma WalkBefore(t: Task, p: Path)
    requires |p| > 1 && WalkOf(t, p).Some?
    ensures WalkOf(t, p[..|p| - 1]).Some?
  {
  }

  /** The tail of a class member is a walk of the spur search. */
  lemma {:induction false} WalkLowers(t: Task, ts: Task, accepted: seq<Path>, root: Path, p: Path, k: nat)
    requires IsSpurTask(t, ts, accepted, root) && root != []
    requires InClass(t, accepted, root, p) && |root| <= k <= |p|
    ensures WalkOf(t, p[..k]).Some? && WalkOf(t, root).Some? && WalkOf(ts, p[|root| - 1..k]).Some?
    ensures WalkOf(t, p[..k]).value.cost == WalkOf(t, root).value.cost + WalkOf(ts, p[|root| - 1..k]).value.cost
    ensures SameHeading(t, WalkOf(t, p[..k]).value, WalkOf(ts, p[|root| - 1..k]).value)
    decreases k
  {
    hide WalkOf, IsSpurTask, Taken, SameHeading;
    WalkPrefix(t, p, k);
    WalkPrefix(t, p, |root|);
    assert p[..|root|] == root;
    if k == |root| {
      SpurBase(t, ts, accepted, root, p);
    } else {
      WalkLowers(t, ts, accepted, root, p, k - 1);
      ClassStep(t, accepted, root, p, k);
      hide *;
      assert p[..k][..k - 1] == p[..k - 1];
      assert p[..k][|root| - 1..] == p[|root| - 1..k];
      assert p[..k - 1][|root| - 1..] == p[|root| - 1..k - 1];
      TailStep(t, ts, accepted, root, p[..k], p[|root| - 1..k]);
    }
  }

  /** One more vertex on both walks. */
  lemma TailStep(t: Task, ts: Task, accepted: seq<Path>, root: Path, p: Path, tail: Path)
    requires IsSpurTask(t, ts, accepted, root) && root != [] && |p| > |root| && tail == p[|root| - 1..]
    requires WalkOf(t, p).Some? && WalkOf(t, p[..|p| - 1]).Some? && WalkOf(ts, p[..|p| - 1][|root| - 1..]).Some?
    requires t.graph.Has(p[|p| - 2]) && t.graph.Has(p[|p| - 1]) && p[|p| - 1] !in root[..|root| - 1]
    requires !(p[|p| - 2] == root[|root| - 1] && Taken(accepted, root, p[|p| - 1]))
    requires SameHeading(t, WalkOf(t, p[..|p| - 1]).value, WalkOf(ts, p[..|p| - 1][|root| - 1..]).value)
    ensures WalkOf(ts, tail).Some? && SameHeading(t, WalkOf(t, p).value, WalkOf(ts, tail).value)
    ensures WalkOf(t, p).value.cost - WalkOf(t, p[..|p| - 1]).value.cost
         == WalkOf(ts, tail).value.cost - WalkOf(ts, p[..|p| - 1][|root| - 1..]).value.cost
  {
    hide *;
    TailSlices(p, |root| - 1);
    WalkUnfold(t, p);
    WalkUnfold(ts, tail);
    StepLowers(t, ts, accepted, root, WalkOf(t, p[..|p| - 1]).value, WalkOf(ts, tail[..|tail| - 1]).value,
               p[|p| - 2], p[|p| - 1]);
  }

  /** Cutting the end off before or after cutting the front off. */
  lemma TailSlices(p: Path, k: nat)
    requires k + 1 < |p|
    ensures p[k..][..|p[k..]| - 1] == p[..|p| - 1][k..]
    ensures |p[k..]| > 1 && p[k..][|p[k..]| - 2] == p[|p| - 2] && p[k..][|p[k..]| - 1] == p[|p| - 1]
  {
  }

  lemma SpurBase(t: Task, ts: Task, accepted: seq<Path>, root: Path, p: Path)
    requires IsSpurTask(t, ts, accepted, root) && InClass(t, accepted, root, p)
    ensures var w := WalkOf(ts, p[|root| - 1..|root|]);
            && w.Some? && w.value.cost == 0.0
            && (WalkOf(t, root).Some? ==> SameHeading(t, WalkOf(t, root).value, w.value))
  {
    hide Taken, Hop;
    WalkInRange(t, p);
    var last := root[|root| - 1];
    assert p[|root| - 1..|root|] == [last] && p[|root| - 1] == last;
    assert last !in root[..|root| - 1] by { assert forall i :: 0 <= i < |root| - 1 ==> root[i] == p[i]; }
  }

  /** Past its root, a class member never meets the spur search's bans. */
  lemma ClassStep(t: Task, accepted: seq<Path>, root: Path, p: Path, k: nat)
    requires root != [] && InClass(t, accepted, root, p) && |root| < k <= |p|
    ensures t.graph.Has(p[k - 2]) && t.graph.Has(p[k - 1])
    ensures p[k - 1] !in root[..|root| - 1]
    ensures !(p[k - 2] == root[|root| - 1] && Taken(accepted, root, p[k - 1]))
  {
    WalkInRange(t, p);
    assert forall i :: 0 <= i < |root| ==> root[i] == p[i];
  }

  /** Whatever the spur search accepts completes the root to a member of the root's class. */
  lemma SpurIsSound(t: Task, ts: Task, accepted: seq<Path>, root: Path, tail: Path)
    requires IsSpurTask(t, ts, accepted, root) && WalkOf(t, root).Some? && Simple(root)
    requires Simple(tail) && Accepts(ts, tail)
    ensures InClass(t, accepted, root, Stitch(root, tail))
    ensures CostOf(t, Stitch(root, tail)) == WalkOf(t, root).value.cost + CostOf(ts, tail)
  {
    hide WalkOf, Taken, Hop;
    WalkLifts(t, ts, accepted, root, tail);
    WalkInRange(ts, tail);
    var p := Stitch(root, tail);
    TailAvoidsRoot(t, ts, accepted, root, tail);
    StitchShape(root, tail);
    var last := tail[|tail| - 1];
    assert p[|p| - 1] == last && (|tail| > 1 ==> last != tail[0]);
    if |tail| > 1 {
      FirstStepIsFree(t, ts, accepted, root, tail);
    }
  }

  lemma TailAvoidsRoot(t: Task, ts: Task, accepted: seq<Path>, root: Path, tail: Path)
    requires IsSpurTask(t, ts, accepted, root) && NodesPass(ts, tail)
    ensures forall i :: 0 <= i < |tail| ==> tail[i] !in root[..|root| - 1]
  {
    hide Taken;
    forall i | 0 <= i < |tail|
      ensures tail[i] !in root[..|root| - 1]
    {
      assert !ts.opts.nodeFilter.Blocks(tail[i]);
    }
  }

  lemma StitchShape(root: Path, tail: Path)
    requires root != [] && tail != [] && tail[0] == root[|root| - 1] && Simple(root) && Simple(tail)
    requires forall i :: 0 <= i < |tail| ==> tail[i] !in root[..|root| - 1]
    ensures var p := Stitch(root, tail);
            && Simple(p) && root <= p && p[|p| - 1] == tail[|tail| - 1]
            && Next(p, root) == if |tail| > 1 then tail[1] else END
  {
    var p, front := Stitch(root, tail), root[..|root| - 1];
    forall i, j | 0 <= i < j < |p|
      ensures p[i] != p[j]
    {
      if i < |front| && j >= |front| {
        assert p[i] == front[i] && p[j] == tail[j - |front|];
      }
    }
  }

  lemma FirstStepIsFree(t: Task, ts: Task, accepted: seq<Path>, root: Path, tail: Path)
    requires IsSpurTask(t, ts, accepted, root) && WalkOf(ts, tail).Some? && |tail| > 1 && tail[0] == root[|root| - 1]
    ensures !Taken(accepted, root, tail[1])
  {
    hide Taken, Hop;
    WalkInRange(ts, tail);
    WalkPrefix(ts, tail, 2);
    assert tail[..2][..1] == [tail[0]];
  }

  /** Every member of the root's class is the root completed by a path the spur search accepts. */
  lemma SpurIsComplete(t: Task, ts: Task, accepted: seq<Path>, root: Path, p: Path) returns (tail: Path)
    requires IsSpurTask(t, ts, accepted, root) && InClass(t, accepted, root, p)
    ensures p == Stitch(root, tail) && Accepts(ts, tail) && WalkOf(t, root).Some?
    ensures CostOf(t, p) == WalkOf(t, root).value.cost + CostOf(ts, tail)
  {
    hide WalkOf, Hop, Taken;
    WalkLowers(t, ts, accepted, root, p, |p|);
    assert p[..|p|] == p;
    tail := p[|root| - 1..];
    assert p[|root| - 1..|p|] == tail && p == Stitch(root, tail);
    assert p[|root| - 1] == root[|root| - 1];
    if |tail| > 1 {
      assert p[|p| - 1] != root[|root| - 1];
    }
  }

  /** With its own goal taken and no other goal on the graph, a root's class is empty. */
  lemma LoneGoalSpurIsEmpty(t: Task, accepted: seq<Path>, root: Path, p: Path)
    requires root != [] && Taken(accepted, root, END)
    requires forall v :: t.GoalSeedOf(v) >= 0.0 ==> v == root[|root| - 1]
    ensures !InClass(t, accepted, root, p)
  {
    hide Taken;
    if Good(t, p) && root <= p {
      assert p[|p| - 1] == root[|root| - 1];
      assert p[|root| - 1] == root[|root| - 1];
      assert |p| == |root|;
    }
  }

  // ---- The spur at the super-source -----------------------------------------------------------

  /** ts is t without the sources the accepted paths start from. */
  ghost predicate IsSourceSpurTask(t: Task, ts: Task, accepted: seq<Path>) {
    && ts.graph == t.graph && ts.opts == t.opts
    && ts.goalSeed == t.goalSeed && ts.srcBearing == t.srcBearing && ts.goalBearing == t.goalBearing
    && forall v :: t.graph.Has(v) ==> ts.SeedOf(v) == if Taken(accepted, [], v) then -1.0 else t.SeedOf(v)
  }

  lemma {:induction false} SourceSpurWalk(t: Task, ts: Task, accepted: seq<Path>, p: Path)
    requires IsSourceSpurTask(t, ts, accepted) && p != []
    ensures WalkOf(ts, p).Some? ==> WalkOf(t, p) == WalkOf(ts, p) && !Taken(accepted, [], p[0])
    ensures WalkOf(t, p).Some? && !Taken(accepted, [], p[0]) ==> WalkOf(ts, p) == WalkOf(t, p)
    decreases |p|
  {
    hide Taken, Hop;
    if |p| > 1 {
      SourceSpurWalk(t, ts, accepted, p[..|p| - 1]);
    }
  }

  /** The source spur accepts exactly the class of the empty prefix, at the same cost. */
  lemma SourceSpurIsClass(t: Task, ts: Task, accepted: seq<Path>, p: Path)
    requires IsSourceSpurTask(t, ts, accepted) && Simple(p)
    ensures Accepts(ts, p) <==> InClass(t, accepted, [], p)
    ensures Accepts(ts, p) ==> TotalOf(t, p) == TotalOf(ts, p)
  {
    hide Taken, WalkOf;
    if p == [] {
      EmptyIsNoWalk(t);
      EmptyIsNoWalk(ts);
    } else {
      SourceSpurWalk(t, ts, accepted, p);
    }
  }

  lemma EmptyIsNoWalk(t: Task)
    ensures WalkOf(t, []).None?
  {
  }
}

/**
 * What a spur answers, as a function of the accepted paths alone: every table built from scratch, for every accepted
 * prefix. The next path of a run is the least of these answers, and the candidates carried from round to round hold them all.
 */
module YenAnswers {
  import opened Numbers
  import opened NavGraphs
  import opened SearchModel
  import opened PathCosts
  import opened AStarInvariants
  import opened AStarResults
  import opened AStar
  import opened YenPartition
  import opened YenSpurs
  import opened YenCandidates

  // ---- One spur, from scratch -----------------------------------------------------------------

  /** The heading a root arrives on: its source's own for a lone vertex, else that of its last edge. */
  ghost function ArrivalHeading(t: Task, root: Path): real
    requires root != []
  {
    if |root| == 1 then t.SourceBearingOf(root[0]) else t.graph.Bearing(root[|root| - 2], root[|root| - 1])
  }

  ghost function GoalCount(table: seq<real>): nat {
    if table == [] then 0
    else GoalCount(table[..|table| - 1]) + if table[|table| - 1] >= 0.0 then 1 else 0
  }

  /** One entry for v, another for everybody else. */
  ghost function LoneTable(n: nat, v: int, own: real, others: real): (table: seq<real>)
    ensures |table| == n && forall w :: 0 <= w < n ==> table[w] == if w == v then own else others
  {
    seq(n, w => if w == v then own else others)
  }

  /** The edges by which accepted paths leave the end of the root. */
  ghost function Bans(accepted: seq<Path>, root: Path): seq<EdgeKey>
    requires root != []
  {
    if accepted == [] then []
    else
      var last := accepted[|accepted| - 1];
      Bans(accepted[..|accepted| - 1], root) + if root < last then [EdgeKey(root[|root| - 1], last[|root|])] else []
  }

  ghost predicate NoneIsEnd(accepted: seq<Path>) {
    forall a, i :: a in accepted && 0 <= i < |a| ==> a[i] != END
  }

  lemma {:induction false} BansAreTaken(accepted: seq<Path>, root: Path)
    requires root != [] && NoneIsEnd(accepted)
    ensures forall u, v :: EdgeKey(u, v) in Bans(accepted, root) <==> u == root[|root| - 1] && v != END && Taken(accepted, root, v)
  {
    if accepted != [] {
      var front, last := accepted[..|accepted| - 1], accepted[|accepted| - 1];
      assert accepted == front + [last] && last in accepted;
      assert forall a :: a in front ==> a in accepted;
      BansAreTaken(front, root);
      forall u, v
        ensures EdgeKey(u, v) in Bans(accepted, root) <==> u == root[|root| - 1] && v != END && Taken(accepted, root, v)
      {
        TakenAppend(front, last, root, v);
        assert root < last ==> last[|root|] != END;
      }
    }
  }

  /** The spur problem at the end of the root. */
  ghost function SpurTask(t: Task, accepted: seq<Path>, root: Path): Task
    requires root != []
  {
    var v, n := root[|root| - 1], t.graph.vertices;
    var nodes := InOrder(t.opts.nodeFilter.banned + root[..|root| - 1], VertexBefore);
    var edges := InOrder(t.opts.edgeFilter.banned + Bans(accepted, root), KeyBefore);
    TaskData(t.graph, t.opts.(nodeFilter := t.opts.nodeFilter.(banned := nodes), edgeFilter := EdgeFilter(edges)),
             LoneTable(n, v, 0.0, -1.0),
             if t.graph.Has(v) && Taken(accepted, root, END) then t.goalSeed[v := -1.0] else t.goalSeed,
             LoneTable(n, v, ArrivalHeading(t, root), NO_BEARING), t.goalBearing)
  }

  /** The sources no accepted path starts from. */
  ghost function Unused(sources: seq<SeededEndpoint>, accepted: seq<Path>): seq<SeededEndpoint> {
    if sources == [] then []
    else
      var last := sources[|sources| - 1];
      Unused(sources[..|sources| - 1], accepted) + if Taken(accepted, [], last.vertex) then [] else [last]
  }

  ghost function SourceTask(t: Task, sources: seq<SeededEndpoint>, accepted: seq<Path>): Task {
    var kept := Unused(sources, accepted);
    TaskData(t.graph, t.opts, seq(t.graph.vertices, v => SeedAt(kept, v)), t.goalSeed, t.srcBearing, t.goalBearing)
  }

  /** With the root's own goal entry dropped, no goal is left. */
  ghost predicate NoGoalLeft(t: Task, accepted: seq<Path>, root: Path)
    requires root != []
  {
    Taken(accepted, root, END) && t.GoalSeedOf(root[|root| - 1]) >= 0.0 && GoalCount(t.goalSeed) < 2
  }

  ghost function SpurAnswer(t: Task, sources: seq<SeededEndpoint>, goals: seq<SeededEndpoint>, accepted: seq<Path>, root: Path)
    : ShortestPath
  {
    if root == [] then SearchResult(SourceTask(t, sources, accepted), Unused(sources, accepted), goals)
    else if NoGoalLeft(t, accepted, root) then NOT_FOUND
    else SearchResult(SpurTask(t, accepted, root), [SeededEndpoint(root[|root| - 1], 0.0, NO_BEARING)], goals)
  }

  /** An answer depends on the accepted paths only through the continuations they take after its root. */
  lemma AnswerStands(t: Task, sources: seq<SeededEndpoint>, goals: seq<SeededEndpoint>, accepted: seq<Path>, more: seq<Path>, root: Path)
    requires AllGood(t, accepted) && AllGood(t, more)
    requires forall x :: Taken(accepted, root, x) <==> Taken(more, root, x)
    ensures SpurAnswer(t, sources, goals, accepted, root) == SpurAnswer(t, sources, goals, more, root)
  {
    hide SearchResult, Taken, Good;
    if root == [] {
      UnusedStands(sources, accepted, more);
    } else {
      GoodPathsAreOnGraph(t, accepted);
      GoodPathsAreOnGraph(t, more);
      BansAreTaken(accepted, root);
      BansAreTaken(more, root);
      BansStand(t.opts.edgeFilter.banned, Bans(accepted, root), Bans(more, root));
    }
  }

  lemma GoodPathsAreOnGraph(t: Task, accepted: seq<Path>)
    requires AllGood(t, accepted)
    ensures NoneIsEnd(accepted)
  {
    hide Good;
    forall a, i | a in accepted && 0 <= i < |a|
      ensures a[i] != END
    {
      GoodFacts(t, a);
    }
  }

  lemma BansStand(caller: seq<EdgeKey>, bans: seq<EdgeKey>, bans': seq<EdgeKey>)
    requires forall u, v :: EdgeKey(u, v) in bans <==> EdgeKey(u, v) in bans'
    ensures InOrder(caller + bans, KeyBefore) == InOrder(caller + bans', KeyBefore)
  {
    var all, all' := InOrder(caller + bans, KeyBefore), InOrder(caller + bans', KeyBefore);
    forall x: EdgeKey
      ensures x in all <==> x in all'
    {
      assert x == EdgeKey(x.from, x.to);
    }
    AscendingIsUnique(all, all', KeyBefore);
  }

  lemma {:induction false} UnusedStands(sources: seq<SeededEndpoint>, accepted: seq<Path>, more: seq<Path>)
    requires forall x :: Taken(accepted, [], x) <==> Taken(more, [], x)
    ensures Unused(sources, accepted) == Unused(sources, more)
  {
    if sources != [] {
      UnusedStands(sources[..|sources| - 1], accepted, more);
    }
  }

  // ---- What the candidates hold ---------------------------------------------------------------

  /** The candidate is what its root's spur answers, stitched on. */
  ghost predicate Answered(t: Task, sources: seq<SeededEndpoint>, goals: seq<SeededEndpoint>, accepted: seq<Path>, c: Candidate) {
    var spur := SpurAnswer(t, sources, goals, accepted, c.Root());
    spur.found && c.vertices == Stitch(c.Root(), spur.vertices)
  }

  /** The candidates are the answers of every accepted prefix that is not pending. */
  ghost predicate Waits(t: Task, sources: seq<SeededEndpoint>, goals: seq<SeededEndpoint>, accepted: seq<Path>,
                        cs: set<Candidate>, latest: Path, i: int) {
    && (forall c :: c in cs ==> Answered(t, sources, goals, accepted, c))
    && (forall r :: InTrie(accepted, r) && !Pending(latest, i, r) && SpurAnswer(t, sources, goals, accepted, r).found ==>
          exists c :: c in cs && c.Root() == r)
  }

  lemma NothingWaits(t: Task, sources: seq<SeededEndpoint>, goals: seq<SeededEndpoint>, p: Path)
    ensures Waits(t, sources, goals, [p], {}, p, -1)
  {
    hide SpurAnswer;
    forall r | InTrie([p], r)
      ensures Pending(p, -1, r)
    {
    }
  }

  /** The spur at index i found nothing. */
  lemma WaitsSkips(t: Task, sources: seq<SeededEndpoint>, goals: seq<SeededEndpoint>, accepted: seq<Path>, cs: set<Candidate>,
                   latest: Path, i: int)
    requires Waits(t, sources, goals, accepted, cs, latest, i) && -1 <= i < |latest|
    requires !SpurAnswer(t, sources, goals, accepted, latest[..i + 1]).found
    ensures Waits(t, sources, goals, accepted, cs, latest, i + 1)
  {
    hide SpurAnswer, InTrie, Candidate.Root;
    forall r | !Pending(latest, i + 1, r) && r != latest[..i + 1]
      ensures !Pending(latest, i, r)
    {
    }
  }

  /** The spur at index i found a path, which becomes a candidate. */
  lemma WaitsGrows(t: Task, sources: seq<SeededEndpoint>, goals: seq<SeededEndpoint>, accepted: seq<Path>, cs: set<Candidate>,
                   latest: Path, i: int, c: Candidate)
    requires Waits(t, sources, goals, accepted, cs, latest, i) && -1 <= i < |latest|
    requires c.Root() == latest[..i + 1] && Answered(t, sources, goals, accepted, c)
    ensures Waits(t, sources, goals, accepted, cs + {c}, latest, i + 1)
  {
    hide SpurAnswer, InTrie, Candidate.Root, Answered;
    forall r | InTrie(accepted, r) && !Pending(latest, i + 1, r) && SpurAnswer(t, sources, goals, accepted, r).found
      ensures exists d :: d in cs + {c} && d.Root() == r
    {
      if r == latest[..i + 1] {
        assert c in cs + {c};
      } else {
        assert !Pending(latest, i, r);
        var d :| d in cs && d.Root() == r;
        assert d in cs + {c};
      }
    }
  }

  /** Accepting `best` adds no continuation after a prefix that is not pending on it. */
  lemma TakenStands(t: Task, accepted: seq<Path>, best: Candidate, r: Path)
    requires CandidateOk(t, accepted, best) && InTrie(accepted, r) && !Pending(best.vertices, best.deviation, r)
    ensures forall x :: Taken(accepted, r, x) <==> Taken(accepted + [best.vertices], r, x)
  {
    forall x
      ensures Taken(accepted, r, x) <==> Taken(accepted + [best.vertices], r, x)
    {
      TakenAppend(accepted, best.vertices, r, x);
      if r <= best.vertices {
        ShorterPrefixTaken(accepted, r, best.Root(), best.vertices);
      }
    }
  }

  lemma WaitsStands(t: Task, sources: seq<SeededEndpoint>, goals: seq<SeededEndpoint>, accepted: seq<Path>, best: Candidate, r: Path)
    requires AllGood(t, accepted) && CandidateOk(t, accepted, best)
    requires InTrie(accepted, r) && !Pending(best.vertices, best.deviation, r)
    ensures SpurAnswer(t, sources, goals, accepted, r) == SpurAnswer(t, sources, goals, accepted + [best.vertices], r)
  {
    hide *;
    TakenStands(t, accepted, best, r);
    GoodGrows(t, accepted, best);
    AnswerStands(t, sources, goals, accepted, accepted + [best.vertices], r);
  }

  lemma GoodGrows(t: Task, accepted: seq<Path>, best: Candidate)
    requires AllGood(t, accepted) && CandidateOk(t, accepted, best)
    ensures AllGood(t, accepted + [best.vertices])
  {
    ClassIsFresh(t, accepted, best);
  }

  /** Accepting `best` leaves the other candidates the answers of what is not pending. */
  lemma WaitsOn(t: Task, sources: seq<SeededEndpoint>, goals: seq<SeededEndpoint>, accepted: seq<Path>, cs: set<Candidate>,
                latest: Path, best: Candidate)
    requires Spurring(t, accepted, cs, latest, |latest|) && Waits(t, sources, goals, accepted, cs, latest, |latest|) && best in cs
    ensures Waits(t, sources, goals, accepted + [best.vertices], cs - {best}, best.vertices, best.deviation)
  {
    hide SpurAnswer, InTrie, Covered, CandidateOk, Candidate.Root;
    var accepted' := accepted + [best.vertices];
    forall c | c in cs - {best}
      ensures Answered(t, sources, goals, accepted', c)
    {
      OthersStay(t, accepted, best, c);
      RootInTrie(t, accepted, c);
      WaitsStands(t, sources, goals, accepted, best, c.Root());
    }
    RootIsPending(t, accepted, best);
    forall r | InTrie(accepted', r) && !Pending(best.vertices, best.deviation, r) && SpurAnswer(t, sources, goals, accepted', r).found
      ensures exists c :: c in cs - {best} && c.Root() == r
    {
      NotPendingIsOld(t, accepted, best, r);
      WaitsStands(t, sources, goals, accepted, best, r);
      assert !Pending(latest, |latest|, r);
      var c :| c in cs && c.Root() == r;
      assert c in cs - {best};
    }
  }

  lemma RootInTrie(t: Task, accepted: seq<Path>, c: Candidate)
    requires CandidateOk(t, accepted, c)
    ensures InTrie(accepted, c.Root())
  {
  }

  lemma RootIsPending(t: Task, accepted: seq<Path>, best: Candidate)
    requires CandidateOk(t, accepted, best)
    ensures Pending(best.vertices, best.deviation, best.Root())
  {
  }

  // ---- The next path of a run -----------------------------------------------------------------

  /** Some accepted prefix's spur answers p. */
  ghost predicate Offered(t: Task, sources: seq<SeededEndpoint>, goals: seq<SeededEndpoint>, accepted: seq<Path>, p: Path) {
    exists r :: InTrie(accepted, r) && SpurAnswer(t, sources, goals, accepted, r).found
                && p == Stitch(r, SpurAnswer(t, sources, goals, accepted, r).vertices)
  }

  /** p is cheaper than q, or costs the same and does not come after it. */
  ghost predicate NoLater(t: Task, p: Path, q: Path) {
    p == q || CostOf(t, p) < CostOf(t, q) || (CostOf(t, p) == CostOf(t, q) && LexLess(p, q))
  }

  /** p is the first, by cost and then by vertices, of all that the accepted prefixes' spurs answer. */
  ghost predicate FirstOffered(t: Task, sources: seq<SeededEndpoint>, goals: seq<SeededEndpoint>, accepted: seq<Path>, p: Path) {
    && Offered(t, sources, goals, accepted, p)
    && forall q :: Offered(t, sources, goals, accepted, q) ==> NoLater(t, p, q)
  }

  /** With all spurs done, what waits is what is offered. */
  lemma WaitingIsOffered(t: Task, sources: seq<SeededEndpoint>, goals: seq<SeededEndpoint>, accepted: seq<Path>,
                         cs: set<Candidate>, latest: Path, p: Path)
    requires Spurring(t, accepted, cs, latest, |latest|) && Waits(t, sources, goals, accepted, cs, latest, |latest|)
    ensures Offered(t, sources, goals, accepted, p) <==> exists c :: c in cs && c.vertices == p
  {
    hide SpurAnswer, InTrie, Covered, CandidateOk, Candidate.Root;
    if Offered(t, sources, goals, accepted, p) {
      var r :| InTrie(accepted, r) && SpurAnswer(t, sources, goals, accepted, r).found
               && p == Stitch(r, SpurAnswer(t, sources, goals, accepted, r).vertices);
      assert !Pending(latest, |latest|, r);
      var c :| c in cs && c.Root() == r;
      assert Answered(t, sources, goals, accepted, c);
    }
    if c :| c in cs && c.vertices == p {
      RootInTrie(t, accepted, c);
      assert Answered(t, sources, goals, accepted, c);
    }
  }

  lemma FirstWaitsIsFirst(t: Task, sources: seq<SeededEndpoint>, goals: seq<SeededEndpoint>, accepted: seq<Path>,
                          cs: seq<Candidate>, latest: Path)
    requires Sorted(cs) && cs != [] && Spurring(t, accepted, Members(cs), latest, |latest|)
    requires Waits(t, sources, goals, accepted, Members(cs), latest, |latest|)
    ensures FirstOffered(t, sources, goals, accepted, cs[0].vertices)
  {
    hide Spurring, Waits, Offered, CostOf;
    var p := cs[0].vertices;
    assert cs[0] in Members(cs);
    WaitingIsOffered(t, sources, goals, accepted, Members(cs), latest, p);
    forall q | Offered(t, sources, goals, accepted, q)
      ensures NoLater(t, p, q)
    {
      WaitingIsOffered(t, sources, goals, accepted, Members(cs), latest, q);
      var c :| c in Members(cs) && c.vertices == q;
      CandidateCost(t, accepted, Members(cs), latest, c);
      CandidateCost(t, accepted, Members(cs), latest, cs[0]);
      assert c == cs[0] || Before(cs[0], c);
    }
  }

  lemma CandidateCost(t: Task, accepted: seq<Path>, cs: set<Candidate>, latest: Path, c: Candidate)
    requires Spurring(t, accepted, cs, latest, |latest|) && c in cs
    ensures CostOf(t, c.vertices) == c.cost
  {
  }

  lemma NoneWaitsNoneOffered(t: Task, sources: seq<SeededEndpoint>, goals: seq<SeededEndpoint>, accepted: seq<Path>, latest: Path)
    requires Spurring(t, accepted, {}, latest, |latest|) && Waits(t, sources, goals, accepted, {}, latest, |latest|)
    ensures forall p :: !Offered(t, sources, goals, accepted, p)
  {
    hide *;
    forall p
      ensures !Offered(t, sources, goals, accepted, p)
    {
      WaitingIsOffered(t, sources, goals, accepted, {}, latest, p);
    }
  }

  /** There is only one such path. */
  lemma FirstIsOne(t: Task, sources: seq<SeededEndpoint>, goals: seq<SeededEndpoint>, accepted: seq<Path>, p: Path, q: Path)
    requires FirstOffered(t, sources, goals, accepted, p) && FirstOffered(t, sources, goals, accepted, q)
    ensures p == q
  {
    hide Offered, CostOf;
    LexTotal(p, q);
  }
}

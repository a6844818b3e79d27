/**
 * Why Yen's spurs are enough: the prefixes of the accepted paths split all remaining paths into
 * disjoint classes, one per prefix, and each class is covered by at most one candidate.
 */
module YenPartition {
  import opened Numbers
  import opened SearchModel
  import opened PathCosts
  import opened AStarInvariants

  type Path = seq<int>

  /** A path Yen may return. */
  ghost predicate Good(t: Task, p: Path) {
    Simple(p) && Accepts(t, p)
  }

  /** The conceptual edge into the super-sink. */
  const END := -1

  /** Where p goes after the prefix r: its next vertex, or the super-sink. */
  ghost function Next(p: Path, r: Path): int {
    if |r| < |p| then p[|r|] else END
  }

  /** Some accepted path starts with r. */
  ghost predicate InTrie(accepted: seq<Path>, r: Path) {
    exists a :: a in accepted && r <= a
  }

  /** Some accepted path starts with r and continues with x. */
  ghost predicate Taken(accepted: seq<Path>, r: Path, x: int) {
    exists a :: a in accepted && r <= a && Next(a, r) == x
  }

  /** The paths through r whose continuation no accepted path has taken. */
  ghost predicate InClass(t: Task, accepted: seq<Path>, r: Path, p: Path) {
    Good(t, p) && r <= p && !Taken(accepted, r, Next(p, r))
  }

  ghost predicate AllGood(t: Task, accepted: seq<Path>) {
    forall a :: a in accepted ==> Good(t, a)
  }

  lemma GoodFacts(t: Task, p: Path)
    requires Good(t, p)
    ensures p != [] && InRange(t, p) && forall i :: 0 <= i < |p| ==> p[i] >= 0
  {
    WalkInRange(t, p);
  }

  lemma TakenAppend(ps: seq<Path>, b: Path, r: Path, x: int)
    ensures Taken(ps + [b], r, x) <==> Taken(ps, r, x) || (r <= b && Next(b, r) == x)
  {
    if Taken(ps + [b], r, x) {
      var a :| a in ps + [b] && r <= a && Next(a, r) == x;
      assert a in ps || a == b;
    }
    if Taken(ps, r, x) {
      var a :| a in ps && r <= a && Next(a, r) == x;
      assert a in ps + [b];
    }
    if r <= b && Next(b, r) == x {
      assert b in ps + [b];
    }
  }

  lemma TrieAppend(ps: seq<Path>, b: Path, r: Path)
    ensures InTrie(ps + [b], r) <==> InTrie(ps, r) || r <= b
  {
    if InTrie(ps + [b], r) {
      var a :| a in ps + [b] && r <= a;
      assert a in ps || a == b;
    }
    if InTrie(ps, r) {
      var a :| a in ps && r <= a;
      assert a in ps + [b];
    }
    if r <= b {
      assert b in ps + [b];
    }
  }

  lemma PrefixInTrie(ps: seq<Path>, r: Path, s: Path)
    requires InTrie(ps, s) && r <= s
    ensures InTrie(ps, r)
  {
    var a :| a in ps && s <= a;
    assert r <= a;
  }

  /** Two proper prefixes of one path: the shorter one's continuation is taken by whatever passes the longer. */
  lemma ShorterPrefixTaken(accepted: seq<Path>, r: Path, s: Path, p: Path)
    requires r <= p && s <= p && |r| < |s| && InTrie(accepted, s)
    ensures Taken(accepted, r, Next(p, r))
  {
    var a :| a in accepted && s <= a;
    assert r <= a;
    assert a[|r|] == s[|r|] == p[|r|];
  }

  /** No path lies in the classes of two different accepted prefixes. */
  lemma ClassesAreDisjoint(t: Task, accepted: seq<Path>, r: Path, s: Path, p: Path)
    requires InTrie(accepted, r) && InClass(t, accepted, r, p)
    requires InTrie(accepted, s) && InClass(t, accepted, s, p)
    ensures r == s
  {
    if |r| < |s| {
      ShorterPrefixTaken(accepted, r, s, p);
    } else if |s| < |r| {
      ShorterPrefixTaken(accepted, s, r, p);
    }
  }

  /** Every good path not yet accepted lies in the class of some accepted prefix. */
  lemma {:induction false} ClassesCover(t: Task, accepted: seq<Path>, p: Path, k: nat) returns (r: Path)
    requires AllGood(t, accepted) && Good(t, p) && p !in accepted
    requires k <= |p| && InTrie(accepted, p[..k])
    ensures InTrie(accepted, r) && InClass(t, accepted, r, p)
    decreases |p| - k
  {
    hide Simple, Accepts;
    r := p[..k];
    var x := Next(p, r);
    if Taken(accepted, r, x) {
      var a :| a in accepted && r <= a && Next(a, r) == x;
      GoodFacts(t, p);
      GoodFacts(t, a);
      assert k == |p| ==> a == p;
      assert p[..k + 1] == r + [x];
      assert p[..k + 1] <= a;
      assert InTrie(accepted, p[..k + 1]);
      hide InTrie, Good, Taken;
      r := ClassesCover(t, accepted, p, k + 1);
    }
  }

  // ---- Candidates ----------------------------------------------------------------------------

  datatype Candidate = Candidate(cost: real, distance: real, vertices: Path, deviation: int) {
    /** The prefix the candidate deviates after. */
    ghost function Root(): Path {
      if -1 <= deviation < |vertices| then vertices[..deviation + 1] else vertices
    }
  }

  ghost predicate CandidateOk(t: Task, accepted: seq<Path>, c: Candidate) {
    && -1 <= c.deviation < |c.vertices|
    && InTrie(accepted, c.Root()) && InClass(t, accepted, c.Root(), c.vertices)
    && TotalOf(t, c.vertices) == Some(Leg(c.cost, c.distance))
  }

  /** Every member of r's class is matched by a candidate from that class, no dearer when costs are exact. */
  ghost predicate Covered(t: Task, accepted: seq<Path>, cs: set<Candidate>, r: Path) {
    forall p :: InClass(t, accepted, r, p) ==>
      exists c :: c in cs && InClass(t, accepted, r, c.vertices)
               && (Exact(t) ==> c.cost <= CostOf(t, p))
  }

  /** The prefixes of the latest path that this round has still to spur from. */
  ghost predicate Pending(latest: Path, i: int, r: Path) {
    r <= latest && |r| >= i + 1
  }

  /** What the spur loop keeps at index i. */
  ghost predicate Spurring(t: Task, accepted: seq<Path>, cs: set<Candidate>, latest: Path, i: int) {
    && AllGood(t, accepted) && latest in accepted
    && (forall c :: c in cs ==> CandidateOk(t, accepted, c) && !Pending(latest, i, c.Root()))
    && (forall c, d :: c in cs && d in cs && c != d ==> c.Root() != d.Root())
    && (forall r :: InTrie(accepted, r) && !Pending(latest, i, r) ==> Covered(t, accepted, cs, r))
  }

  /** After the first path only the empty prefix and its own prefixes exist, all still pending. */
  lemma FirstRound(t: Task, p: Path)
    requires Good(t, p)
    ensures Spurring(t, [p], {}, p, -1)
  {
    forall r | InTrie([p], r)
      ensures Pending(p, -1, r)
    {
    }
  }

  /** A spur whose class is empty adds nothing. */
  lemma EmptySpur(t: Task, accepted: seq<Path>, cs: set<Candidate>, latest: Path, i: int, root: Path)
    requires Spurring(t, accepted, cs, latest, i) && -1 <= i < |latest| && root == latest[..i + 1]
    requires forall p :: !InClass(t, accepted, root, p)
    ensures Spurring(t, accepted, cs, latest, i + 1)
  {
    forall r | InTrie(accepted, r) && !Pending(latest, i + 1, r)
      ensures Covered(t, accepted, cs, r)
    {
      if Pending(latest, i, r) {
        assert r == latest[..i + 1];
      }
    }
  }

  /** A spur's answer is never already waiting: no candidate has the same vertices. */
  lemma SpurIsNew(t: Task, accepted: seq<Path>, cs: set<Candidate>, latest: Path, i: int, c: Candidate)
    requires Spurring(t, accepted, cs, latest, i) && -1 <= i < |latest|
    requires InClass(t, accepted, latest[..i + 1], c.vertices)
    ensures forall d :: d in cs ==> d.vertices != c.vertices
  {
    forall d | d in cs
      ensures d.vertices != c.vertices
    {
      if d.vertices == c.vertices {
        assert InTrie(accepted, latest[..i + 1]);
        ClassesAreDisjoint(t, accepted, d.Root(), latest[..i + 1], c.vertices);
      }
    }
  }

  lemma AddSpur(t: Task, accepted: seq<Path>, cs: set<Candidate>, latest: Path, i: int, root: Path, c: Candidate)
    requires Spurring(t, accepted, cs, latest, i) && -1 <= i < |latest| && root == latest[..i + 1]
    requires c.deviation == i && InClass(t, accepted, root, c.vertices)
    requires TotalOf(t, c.vertices) == Some(Leg(c.cost, c.distance))
    requires Exact(t) ==> forall p :: InClass(t, accepted, root, p) ==> c.cost <= CostOf(t, p)
    ensures Spurring(t, accepted, cs + {c}, latest, i + 1)
  {
    var cs' := cs + {c};
    AddSpurRoot(t, accepted, latest, i, c);
    hide InClass, InTrie, Covered, Candidate.Root, CandidateOk, Good;
    forall d | d in cs'
      ensures CandidateOk(t, accepted, d) && !Pending(latest, i + 1, d.Root())
    {
      if d != c {
        assert !Pending(latest, i, d.Root());
      }
    }
    forall x, y | x in cs' && y in cs' && x != y
      ensures x.Root() != y.Root()
    {
      if x == c {
        assert !Pending(latest, i, y.Root());
      } else if y == c {
        assert !Pending(latest, i, x.Root());
      }
    }
    forall r | InTrie(accepted, r) && !Pending(latest, i + 1, r)
      ensures Covered(t, accepted, cs', r)
    {
      if r == root {
        CoveredByOne(t, accepted, cs', root, c);
      } else {
        CoveredGrows(t, accepted, cs, cs', r);
      }
    }
  }

  lemma AddSpurRoot(t: Task, accepted: seq<Path>, latest: Path, i: int, c: Candidate)
    requires latest in accepted && -1 <= i < |latest|
    requires c.deviation == i && InClass(t, accepted, latest[..i + 1], c.vertices)
    requires TotalOf(t, c.vertices) == Some(Leg(c.cost, c.distance))
    ensures c.Root() == latest[..i + 1] && CandidateOk(t, accepted, c)
    ensures Pending(latest, i, c.Root()) && !Pending(latest, i + 1, c.Root())
  {
    RootIsProper(t, accepted, latest, i, c.vertices);
  }

  lemma CoveredByOne(t: Task, accepted: seq<Path>, cs: set<Candidate>, r: Path, c: Candidate)
    requires c in cs && InClass(t, accepted, r, c.vertices)
    requires Exact(t) ==> forall p :: InClass(t, accepted, r, p) ==> c.cost <= CostOf(t, p)
    ensures Covered(t, accepted, cs, r)
  {
  }

  lemma CoveredGrows(t: Task, accepted: seq<Path>, cs: set<Candidate>, cs': set<Candidate>, r: Path)
    requires Covered(t, accepted, cs, r) && cs <= cs'
    ensures Covered(t, accepted, cs', r)
  {
    hide InClass;
    forall p | InClass(t, accepted, r, p)
      ensures exists c :: c in cs' && InClass(t, accepted, r, c.vertices) && (Exact(t) ==> c.cost <= CostOf(t, p))
    {
      var c :| c in cs && InClass(t, accepted, r, c.vertices) && (Exact(t) ==> c.cost <= CostOf(t, p));
      assert c in cs';
    }
  }

  lemma RootIsProper(t: Task, accepted: seq<Path>, latest: Path, i: int, p: Path)
    requires -1 <= i < |latest| && InClass(t, accepted, latest[..i + 1], p)
    ensures i < |p|
  {
    GoodFacts(t, p);
  }

  // ---- Accepting the cheapest candidate -------------------------------------------------------

  /** Prefixes of `best` longer than its root are new to the trie. */
  lemma RootIsLongest(t: Task, accepted: seq<Path>, best: Candidate, r: Path)
    requires CandidateOk(t, accepted, best) && r <= best.vertices && InTrie(accepted, r)
    ensures |r| <= |best.Root()|
  {
    if |r| > |best.Root()| {
      ShorterPrefixTaken(accepted, best.Root(), r, best.vertices);
    }
  }

  /** Accepting `best` leaves every other candidate in its own class. */
  lemma OthersStay(t: Task, accepted: seq<Path>, best: Candidate, c: Candidate)
    requires CandidateOk(t, accepted, best) && CandidateOk(t, accepted, c) && c.Root() != best.Root()
    ensures CandidateOk(t, accepted + [best.vertices], c)
    ensures !Pending(best.vertices, best.deviation, c.Root())
  {
    var accepted', r, x := accepted + [best.vertices], c.Root(), Next(c.vertices, c.Root());
    if r <= best.vertices {
      RootIsLongest(t, accepted, best, r);
      assert |r| < |best.Root()|;
      ShorterPrefixTaken(accepted, r, best.Root(), best.vertices);
    }
    TakenAppend(accepted, best.vertices, r, x);
    TrieAppend(accepted, best.vertices, r);
  }

  lemma ClassShrinks(t: Task, accepted: seq<Path>, a: Path, r: Path, p: Path)
    requires InClass(t, accepted + [a], r, p)
    ensures InClass(t, accepted, r, p)
  {
    TakenAppend(accepted, a, r, Next(p, r));
  }

  /** A prefix of the new trie that is not pending was in the old trie already. */
  lemma NotPendingIsOld(t: Task, accepted: seq<Path>, best: Candidate, r: Path)
    requires CandidateOk(t, accepted, best)
    requires InTrie(accepted + [best.vertices], r) && !Pending(best.vertices, best.deviation, r)
    ensures InTrie(accepted, r)
  {
    TrieAppend(accepted, best.vertices, r);
    if r <= best.vertices {
      assert r <= best.Root();
      PrefixInTrie(accepted, r, best.Root());
    }
  }

  /** A candidate that covers a class `best` is not pending on is not `best`, and stays in that class. */
  lemma CoverStays(t: Task, accepted: seq<Path>, best: Candidate, c: Candidate, r: Path)
    requires CandidateOk(t, accepted, best) && CandidateOk(t, accepted, c) && (c != best ==> c.Root() != best.Root())
    requires InTrie(accepted, r) && !Pending(best.vertices, best.deviation, r) && InClass(t, accepted, r, c.vertices)
    ensures c != best && InClass(t, accepted + [best.vertices], r, c.vertices)
  {
    ClassesAreDisjoint(t, accepted, c.Root(), r, c.vertices);
    assert best.Root() == best.vertices[..best.deviation + 1];
    OthersStay(t, accepted, best, c);
  }

  /** Classes that `best` did not come from stay covered. */
  lemma StaysCovered(t: Task, accepted: seq<Path>, cs: set<Candidate>, latest: Path, best: Candidate, r: Path)
    requires Spurring(t, accepted, cs, latest, |latest|) && best in cs
    requires InTrie(accepted + [best.vertices], r) && !Pending(best.vertices, best.deviation, r)
    ensures Covered(t, accepted + [best.vertices], cs - {best}, r)
  {
    assert !Pending(latest, |latest|, r);
    NotPendingIsOld(t, accepted, best, r);
    forall p | InClass(t, accepted + [best.vertices], r, p)
      ensures exists c :: c in cs - {best} && InClass(t, accepted + [best.vertices], r, c.vertices)
                       && (Exact(t) ==> c.cost <= CostOf(t, p))
    {
      hide *;
      var c := CoverOf(t, accepted, cs, latest, best, r, p);
    }
  }

  lemma CoverOf(t: Task, accepted: seq<Path>, cs: set<Candidate>, latest: Path, best: Candidate, r: Path, p: Path)
    returns (c: Candidate)
    requires Spurring(t, accepted, cs, latest, |latest|) && best in cs
    requires InTrie(accepted, r) && !Pending(best.vertices, best.deviation, r) && !Pending(latest, |latest|, r)
    requires InClass(t, accepted + [best.vertices], r, p)
    ensures c in cs - {best} && InClass(t, accepted + [best.vertices], r, c.vertices)
    ensures Exact(t) ==> c.cost <= CostOf(t, p)
  {
    hide *;
    ClassShrinks(t, accepted, best.vertices, r, p);
    SpurringCovers(t, accepted, cs, latest, r);
    c := CoveredPick(t, accepted, cs, r, p);
    SpurringPair(t, accepted, cs, latest, best, c);
    CoverStays(t, accepted, best, c, r);
  }

  lemma CoveredPick(t: Task, accepted: seq<Path>, cs: set<Candidate>, r: Path, p: Path) returns (c: Candidate)
    requires Covered(t, accepted, cs, r) && InClass(t, accepted, r, p)
    ensures c in cs && InClass(t, accepted, r, c.vertices) && (Exact(t) ==> c.cost <= CostOf(t, p))
  {
    hide InClass;
    c :| c in cs && InClass(t, accepted, r, c.vertices) && (Exact(t) ==> c.cost <= CostOf(t, p));
  }

  lemma SpurringCovers(t: Task, accepted: seq<Path>, cs: set<Candidate>, latest: Path, r: Path)
    requires Spurring(t, accepted, cs, latest, |latest|) && InTrie(accepted, r) && !Pending(latest, |latest|, r)
    ensures Covered(t, accepted, cs, r)
  {
  }

  lemma SpurringPair(t: Task, accepted: seq<Path>, cs: set<Candidate>, latest: Path, c: Candidate, d: Candidate)
    requires Spurring(t, accepted, cs, latest, |latest|) && c in cs && d in cs
    ensures CandidateOk(t, accepted, c) && CandidateOk(t, accepted, d) && (d != c ==> d.Root() != c.Root())
  {
  }

  lemma AcceptBest(t: Task, accepted: seq<Path>, cs: set<Candidate>, latest: Path, best: Candidate)
    requires Spurring(t, accepted, cs, latest, |latest|) && best in cs
    ensures best.vertices !in accepted
    ensures Spurring(t, accepted + [best.vertices], cs - {best}, best.vertices, best.deviation)
  {
    hide InClass, InTrie, Covered, Pending;
    var accepted', cs' := accepted + [best.vertices], cs - {best};
    assert best.vertices !in accepted by { ClassIsFresh(t, accepted, best); }
    assert Good(t, best.vertices) by { ClassIsFresh(t, accepted, best); }
    forall c | c in cs'
      ensures CandidateOk(t, accepted', c) && !Pending(best.vertices, best.deviation, c.Root())
    {
      OthersStay(t, accepted, best, c);
    }
    forall r | InTrie(accepted', r) && !Pending(best.vertices, best.deviation, r)
      ensures Covered(t, accepted', cs', r)
    {
      StaysCovered(t, accepted, cs, latest, best, r);
    }
  }

  lemma ClassIsFresh(t: Task, accepted: seq<Path>, c: Candidate)
    requires CandidateOk(t, accepted, c)
    ensures Good(t, c.vertices) && c.vertices !in accepted
  {
    var r := c.Root();
    assert c.vertices in accepted ==> Taken(accepted, r, Next(c.vertices, r));
  }

  /** With all spurs done, every remaining good path is matched by a candidate. */
  lemma CandidateFor(t: Task, accepted: seq<Path>, cs: set<Candidate>, latest: Path, p: Path) returns (c: Candidate)
    requires Spurring(t, accepted, cs, latest, |latest|) && Good(t, p) && p !in accepted
    ensures c in cs && (Exact(t) ==> c.cost <= CostOf(t, p))
  {
    assert p[..0] == [] && [] <= latest;
    var r := ClassesCover(t, accepted, p, 0);
    assert !Pending(latest, |latest|, r);
    c :| c in cs && InClass(t, accepted, r, c.vertices) && (Exact(t) ==> c.cost <= CostOf(t, p));
  }
}

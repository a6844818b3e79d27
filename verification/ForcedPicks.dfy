/** Index vectors into the per-hop candidate lists, and the tree in which each has one parent. */
module ForcedPicks {
  type Pick = seq<nat>

  /** How many candidates each hop offers. */
  type Sizes = seq<nat>

  ghost predicate InBox(sizes: Sizes, p: Pick) {
    |p| == |sizes| && forall h :: 0 <= h < |p| ==> p[h] < sizes[h]
  }

  ghost function Zero(n: nat): (p: Pick)
    ensures |p| == n && forall h :: 0 <= h < n ==> p[h] == 0
  {
    seq(n, _ => 0)
  }

  /** The last hop that has advanced, or 0 when none has. */
  ghost function LastAdvanced(p: Pick): (h: nat)
    ensures p != [] ==> h < |p|
    ensures forall j :: h < j < |p| ==> p[j] == 0
    ensures h != 0 ==> h < |p| && p[h] > 0
  {
    if p == [] then 0
    else if p[|p| - 1] > 0 then |p| - 1
    else LastAdvanced(p[..|p| - 1])
  }

  ghost predicate IsRoot(p: Pick) {
    forall h :: 0 <= h < |p| ==> p[h] == 0
  }

  ghost function Parent(p: Pick): Pick {
    var h := LastAdvanced(p);
    if h < |p| && p[h] > 0 then p[h := p[h] - 1] else p
  }

  ghost function Weight(p: Pick): nat {
    if p == [] then 0 else Weight(p[..|p| - 1]) + p[|p| - 1]
  }

  lemma {:induction false} WeightUpdate(p: Pick, h: nat, x: nat)
    requires h < |p|
    ensures Weight(p[h := x]) == Weight(p) - p[h] + x
  {
    if h == |p| - 1 {
      assert p[h := x][..|p| - 1] == p[..|p| - 1];
    } else {
      assert p[h := x][..|p| - 1] == p[..|p| - 1][h := x];
      WeightUpdate(p[..|p| - 1], h, x);
    }
  }

  lemma RootHasNoAdvance(p: Pick)
    ensures IsRoot(p) <==> p == [] || p[LastAdvanced(p)] == 0
  {
  }

  lemma LastAdvancedIs(p: Pick, h: nat)
    requires h < |p| && p[h] > 0 && forall j :: h < j < |p| ==> p[j] == 0
    ensures LastAdvanced(p) == h
  {
  }

  /** Advancing at or past the last advanced hop gives a pick whose parent is the one advanced. */
  lemma ChildHasParent(p: Pick, h: nat)
    requires LastAdvanced(p) <= h < |p|
    ensures var c := p[h := p[h] + 1];
            LastAdvanced(c) == h && Parent(c) == p && !IsRoot(c)
  {
    var c := p[h := p[h] + 1];
    LastAdvancedIs(c, h);
  }

  lemma LastAdvancedAtMost(p: Pick, h: nat)
    requires h < |p| && forall j :: h < j < |p| ==> p[j] == 0
    ensures LastAdvanced(p) <= h
  {
  }

  /** Every pick but the root is the child of its parent at its last advanced hop. */
  lemma ParentHasChild(sizes: Sizes, p: Pick)
    requires InBox(sizes, p) && !IsRoot(p)
    ensures var q, h := Parent(p), LastAdvanced(p);
            && InBox(sizes, q) && LastAdvanced(q) <= h < |p| && |q| == |p|
            && p[h] > 0 && q == p[h := p[h] - 1] && p == q[h := q[h] + 1]
            && Weight(q) < Weight(p)
  {
    hide LastAdvanced, IsRoot, Weight, Parent;
    ParentIs(p);
    var h := LastAdvanced(p);
    WeightUpdate(p, h, p[h] - 1);
    LastAdvancedAtMost(p[h := p[h] - 1], h);
  }

  lemma ParentIs(p: Pick)
    requires !IsRoot(p)
    ensures var h := LastAdvanced(p);
            && h < |p| && p[h] > 0 && Parent(p) == p[h := p[h] - 1]
            && forall j :: h < j < |p| ==> p[j] == 0
  {
    RootHasNoAdvance(p);
  }

  // ---- Exploring the tree ---------------------------------------------------------------------

  /** Explored picks and waiting ones: nothing twice, children follow parents, nothing forgotten. */
  ghost predicate Explores(sizes: Sizes, explored: set<Pick>, waiting: set<Pick>) {
    && explored !! waiting
    && (forall p :: p in explored || p in waiting ==> InBox(sizes, p))
    && (forall p :: InBox(sizes, p) && IsRoot(p) ==> p in explored || p in waiting)
    && (forall p :: (p in explored || p in waiting) && !IsRoot(p) ==> Parent(p) in explored)
    && (forall p :: InBox(sizes, p) && !IsRoot(p) && Parent(p) in explored ==> p in explored || p in waiting)
  }

  ghost function Children(sizes: Sizes, p: Pick, from: nat, upto: nat): set<Pick>
    requires upto <= |p| && |p| == |sizes|
  {
    set h: nat | from <= h < upto && p[h] + 1 < sizes[h] :: p[h := p[h] + 1]
  }

  lemma ExploreStarts(sizes: Sizes)
    requires forall h :: 0 <= h < |sizes| ==> sizes[h] > 0
    ensures Explores(sizes, {}, {Zero(|sizes|)}) && LastAdvanced(Zero(|sizes|)) == 0
  {
    forall p | InBox(sizes, p) && IsRoot(p)
      ensures p == Zero(|sizes|)
    {
    }
  }

  /** A waiting pick's children have not been generated before. */
  lemma ChildrenAreNew(sizes: Sizes, explored: set<Pick>, waiting: set<Pick>, p: Pick, h: nat)
    requires Explores(sizes, explored, waiting) && p in waiting && LastAdvanced(p) <= h < |p|
    ensures var c := p[h := p[h] + 1]; c !in explored && c !in waiting
  {
    ChildHasParent(p, h);
  }

  lemma ExploreStep(sizes: Sizes, explored: set<Pick>, waiting: set<Pick>, p: Pick)
    requires Explores(sizes, explored, waiting) && p in waiting && |p| == |sizes|
    ensures Explores(sizes, explored + {p}, (waiting - {p}) + Children(sizes, p, LastAdvanced(p), |p|))
  {
    hide IsRoot, Parent, LastAdvanced, Weight;
    var children := Children(sizes, p, LastAdvanced(p), |p|);
    forall c | c in children
      ensures InBox(sizes, c) && Parent(c) == p && !IsRoot(c) && c !in explored && c !in waiting && c != p
    {
      var h: nat :| LastAdvanced(p) <= h < |p| && p[h] + 1 < sizes[h] && c == p[h := p[h] + 1];
      ChildHasParent(p, h);
      ChildrenAreNew(sizes, explored, waiting, p, h);
    }
    forall q | InBox(sizes, q) && !IsRoot(q) && Parent(q) == p
      ensures q in children
    {
      ParentHasChild(sizes, q);
      var h := LastAdvanced(q);
      assert LastAdvanced(p) <= h < |p| && p[h] + 1 < sizes[h] && q == p[h := p[h] + 1];
    }
  }

  /** A pick not yet explored descends from a waiting one, hop by hop no smaller. */
  lemma {:induction false} WaitingAncestor(sizes: Sizes, explored: set<Pick>, waiting: set<Pick>, p: Pick) returns (a: Pick)
    requires Explores(sizes, explored, waiting) && InBox(sizes, p) && p !in explored
    ensures a in waiting && InBox(sizes, a) && forall h :: 0 <= h < |p| ==> a[h] <= p[h]
    decreases Weight(p)
  {
    if p in waiting {
      return p;
    }
    ParentHasChild(sizes, p);
    a := WaitingAncestor(sizes, explored, waiting, Parent(p));
  }

  // ---- Size of the box ------------------------------------------------------------------------

  ghost function BoxSize(sizes: Sizes): nat {
    if sizes == [] then 1 else BoxSize(sizes[..|sizes| - 1]) * sizes[|sizes| - 1]
  }

  ghost function Box(sizes: Sizes): set<Pick> {
    if sizes == [] then {[]} else Product(Box(sizes[..|sizes| - 1]), sizes[|sizes| - 1])
  }

  /** Each pick of ps extended by each index below n. */
  ghost function Product(ps: set<Pick>, n: nat): set<Pick> {
    if n == 0 then {} else Product(ps, n - 1) + Layer(ps, n - 1)
  }

  ghost function Layer(ps: set<Pick>, x: nat): set<Pick> {
    set p | p in ps :: p + [x]
  }

  lemma {:induction false} InProduct(ps: set<Pick>, n: nat, p: Pick, x: nat)
    requires p in ps && x < n
    ensures p + [x] in Product(ps, n)
  {
    if x < n - 1 {
      InProduct(ps, n - 1, p, x);
    } else {
      assert p + [x] in Layer(ps, x);
    }
  }

  lemma {:induction false} ProductLast(ps: set<Pick>, n: nat, q: Pick)
    requires q in Product(ps, n)
    ensures q != [] && q[|q| - 1] < n
  {
    if q !in Layer(ps, n - 1) {
      ProductLast(ps, n - 1, q);
    }
  }

  lemma {:induction false} BoxIsBox(sizes: Sizes, p: Pick)
    requires InBox(sizes, p)
    ensures p in Box(sizes)
  {
    if sizes != [] {
      var q, x := p[..|p| - 1], p[|p| - 1];
      BoxIsBox(sizes[..|sizes| - 1], q);
      InProduct(Box(sizes[..|sizes| - 1]), sizes[|sizes| - 1], q, x);
      assert p == q + [x];
    }
  }

  lemma {:induction false} BoxHasSize(sizes: Sizes)
    ensures |Box(sizes)| == BoxSize(sizes)
  {
    if sizes != [] {
      BoxHasSize(sizes[..|sizes| - 1]);
      ProductSize(Box(sizes[..|sizes| - 1]), sizes[|sizes| - 1]);
    }
  }

  lemma DisjointSize(a: set<Pick>, b: set<Pick>)
    requires a !! b
    ensures |a + b| == |a| + |b|
  {
  }

  lemma {:induction false} ProductSize(ps: set<Pick>, n: nat)
    ensures |Product(ps, n)| == |ps| * n
  {
    if n > 0 {
      ProductSize(ps, n - 1);
      LayerSize(ps, n - 1);
      LayersApart(ps, n - 1);
      DisjointSize(Product(ps, n - 1), Layer(ps, n - 1));
      assert |ps| * n == |ps| * (n - 1) + |ps|;
    }
  }

  lemma LayersApart(ps: set<Pick>, m: nat)
    ensures Product(ps, m) !! Layer(ps, m)
  {
    forall q | q in Layer(ps, m)
      ensures q !in Product(ps, m)
    {
      assert q[|q| - 1] == m;
      if q in Product(ps, m) {
        ProductLast(ps, m, q);
      }
    }
  }

  lemma {:induction false} LayerSize(ps: set<Pick>, x: nat)
    ensures |Layer(ps, x)| == |ps|
    decreases ps
  {
    if |ps| > 0 {
      var q: Pick :| q in ps;
      LayerSize(ps - {q}, x);
      assert Layer(ps, x) == Layer(ps - {q}, x) + {q + [x]};
      assert q + [x] !in Layer(ps - {q}, x) by {
        forall p | p in ps - {q} ensures p + [x] != q + [x] {
          assert (p + [x])[..|p|] == p && (q + [x])[..|q|] == q;
        }
      }
    } else {
      assert Layer(ps, x) == {};
    }
  }

  /** No more picks can be explored than the box holds. */
  lemma ExploredFits(sizes: Sizes, explored: set<Pick>)
    requires forall p :: p in explored ==> InBox(sizes, p)
    ensures |explored| <= BoxSize(sizes)
    ensures |explored| == BoxSize(sizes) ==> forall p :: InBox(sizes, p) ==> p in explored
  {
    BoxHasSize(sizes);
    forall p
      ensures InBox(sizes, p) ==> p in Box(sizes)
    {
      if InBox(sizes, p) {
        BoxIsBox(sizes, p);
      }
    }
    assert explored <= Box(sizes);
    assert Box(sizes) == explored + (Box(sizes) - explored);
    assert |Box(sizes) - explored| == 0 ==> Box(sizes) - explored == {};
  }
}

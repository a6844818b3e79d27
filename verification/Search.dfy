/** What shapes a search: filters, constraints, the turn penalty, and seeded endpoints. */
module SearchModel {
  import opened Numbers
  import opened NavGraphs

  const NO_VERTEX := -1
  const NO_BEARING := -1.0

  datatype EdgeVerdict = EdgeVerdict(allowed: bool, extraCost: real)

  /** A constraint is a deterministic function of the edge: its verdict at each edge position. */
  type Constraint = seq<EdgeVerdict>

  function Evaluate(c: Constraint, i: nat): EdgeVerdict {
    if i < |c| then c[i] else EdgeVerdict(true, 0.0)
  }

  // ---- Filters -------------------------------------------------------------------------------

  /** A directed edge as the halves of one 64-bit number; the ban lists are sorted by that number. */
  datatype EdgeKey = EdgeKey(from: int, to: int) {
    function Packed(): int {
      from * 0x1_0000_0000 + to
    }

    predicate Before(that: EdgeKey) {
      from < that.from || (from == that.from && to < that.to)
    }
  }

  /** Between vertices, the packed numbers are told apart and ordered as their halves are. */
  lemma PackedOrdersKeys(a: EdgeKey, b: EdgeKey)
    requires 0 <= a.from < INT_LIMIT && 0 <= a.to < INT_LIMIT && 0 <= b.from < INT_LIMIT && 0 <= b.to < INT_LIMIT
    ensures a.Packed() == b.Packed() <==> a == b
    ensures a.Packed() < b.Packed() <==> a.Before(b)
  {
  }

  datatype NodeFilter = NodeFilter(airportFirst: int, airportLast: int, banned: seq<int>) {
    predicate Blocks(v: int) {
      (airportFirst >= 0 && airportFirst <= v < airportLast) || v in banned
    }
  }

  /** The airport range is half open, a negative start means there is none, and a ban holds anywhere. */
  lemma FilterBlocks(f: NodeFilter, v: int)
    ensures v in f.banned ==> f.Blocks(v)
    ensures f.airportFirst < 0 ==> (f.Blocks(v) <==> v in f.banned)
    ensures 0 <= f.airportFirst < f.airportLast ==>
              && f.Blocks(f.airportFirst) && f.Blocks(f.airportLast - 1)
              && (f.airportLast !in f.banned ==> !f.Blocks(f.airportLast))
              && (f.airportFirst - 1 !in f.banned ==> !f.Blocks(f.airportFirst - 1))
  {
  }

  datatype EdgeFilter = EdgeFilter(banned: seq<EdgeKey>) {
    predicate Blocks(from: int, to: int) {
      EdgeKey(from, to) in banned
    }
  }

  // ---- Turn penalty --------------------------------------------------------------------------

  function TurnAngle(inbound: real, outbound: real): (angle: real)
    ensures 0.0 <= inbound < 360.0 && 0.0 <= outbound < 360.0 ==> 0.0 <= angle <= 180.0
  {
    var delta := if inbound >= outbound then inbound - outbound else outbound - inbound;
    if delta > 180.0 then 360.0 - delta else delta
  }

  /** The penalty as a curve from angle to NM; the search only ever looks values up on it. */
  datatype TurnPenalty = TurnPenalty(enabled: bool, curve: imap<real, real>) {
    function Of(angle: real): real {
      if enabled && angle in curve then curve[angle] else 0.0
    }

    ghost predicate NonNegative() {
      forall a :: a in curve ==> curve[a] >= 0.0
    }
  }

  datatype SearchOptions = SearchOptions(
    constraints: seq<Constraint>, hasRequest: bool, turn: TurnPenalty,
    nodeFilter: NodeFilter, edgeFilter: EdgeFilter)

  // ---- The price of one edge -----------------------------------------------------------------

  /** The summed penalty of the first constraints, or None once any of them blocks the edge. */
  ghost function Penalty(cs: seq<Constraint>, i: nat): Option<real> {
    if cs == [] then Some(0.0)
    else
      var before := Penalty(cs[..|cs| - 1], i);
      var verdict := Evaluate(cs[|cs| - 1], i);
      if before.None? || !verdict.allowed then None else Some(before.value + verdict.extraCost)
  }

  /** Distance plus penalties, or None when the edge may not be used. */
  ghost function Price(g: NavGraph, opts: SearchOptions, i: nat): Option<real> {
    if i >= |g.edges| then None
    else if opts.constraints == [] then Some(g.edges[i].distance)
    else if !opts.hasRequest then None
    else
      var p := Penalty(opts.constraints, i);
      if p.None? then None else Some(g.edges[i].distance + p.value)
  }

  /** Constraint lists one after the other block what either blocks, and otherwise charge both charges. */
  lemma {:induction false} PenaltiesAddUp(a: seq<Constraint>, b: seq<Constraint>, i: nat)
    ensures Penalty(a + b, i).Some? <==> Penalty(a, i).Some? && Penalty(b, i).Some?
    ensures Penalty(a + b, i).Some? ==> Penalty(a + b, i).value == Penalty(a, i).value + Penalty(b, i).value
    decreases |b|
  {
    if b == [] {
      assert a + b == a;
    } else {
      assert (a + b)[..|a + b| - 1] == a + b[..|b| - 1];
      PenaltiesAddUp(a, b[..|b| - 1], i);
    }
  }

  /** Soft penalties are never negative. */
  ghost predicate PenaltiesNonNegative(opts: SearchOptions) {
    forall c, i :: 0 <= c < |opts.constraints| && 0 <= i < |opts.constraints[c]| ==>
      opts.constraints[c][i].extraCost >= 0.0
  }

  lemma {:induction false} PenaltyNonNegative(opts: SearchOptions, k: nat, i: nat)
    requires PenaltiesNonNegative(opts) && k <= |opts.constraints|
    ensures Penalty(opts.constraints[..k], i).Some? ==> Penalty(opts.constraints[..k], i).value >= 0.0
  {
    if k > 0 {
      assert opts.constraints[..k][..k - 1] == opts.constraints[..k - 1];
      PenaltyNonNegative(opts, k - 1, i);
      assert Evaluate(opts.constraints[k - 1], i).extraCost >= 0.0;
    }
  }

  lemma PriceAtLeastDistance(g: NavGraph, opts: SearchOptions, i: nat)
    requires PenaltiesNonNegative(opts)
    ensures Price(g, opts, i).Some? ==> Price(g, opts, i).value >= g.edges[i].distance >= 0.0
  {
    PenaltyNonNegative(opts, |opts.constraints|, i);
    assert opts.constraints[..|opts.constraints|] == opts.constraints;
  }

  /** Evaluates every constraint on an edge, stopping at the first that blocks it. */
  method EdgeAllowed(g: NavGraph, opts: SearchOptions, i: nat) returns (allowed: bool, extra: real)
    requires i < |g.edges|
    ensures allowed <==> Price(g, opts, i).Some?
    ensures allowed ==> Price(g, opts, i).value == g.edges[i].distance + extra
  {
    extra := 0.0;
    if opts.constraints == [] {
      return true, extra;
    }
    if !opts.hasRequest {
      return false, extra;
    }
    var cs := opts.constraints;
    for c := 0 to |cs|
      invariant Penalty(cs[..c], i) == Some(extra)
    {
      assert cs[..c + 1][..c] == cs[..c];
      var verdict := Evaluate(cs[c], i);
      if !verdict.allowed {
        BlockedStaysBlocked(cs, c + 1, i);
        return false, extra;
      }
      extra := extra + verdict.extraCost;
    }
    assert cs[..|cs|] == cs;
    allowed := true;
  }

  lemma {:induction false} BlockedStaysBlocked(cs: seq<Constraint>, k: nat, i: nat)
    requires k <= |cs| && Penalty(cs[..k], i).None?
    ensures Penalty(cs, i).None?
    decreases |cs|
  {
    if k < |cs| {
      assert cs[..|cs| - 1][..k] == cs[..k];
      BlockedStaysBlocked(cs[..|cs| - 1], k, i);
    } else {
      assert cs[..k] == cs;
    }
  }

  // ---- Parallel edges ------------------------------------------------------------------------

  /** The edge position a scan of u's row up to position k has picked for target v. */
  ghost function Scan(g: NavGraph, opts: SearchOptions, u: int, v: int, k: nat): (pick: Option<nat>)
    ensures pick.Some? ==> UsableEdge(g, opts, u, v, k, pick.value)
    decreases k
  {
    if !g.Has(u) || k <= g.EdgesBegin(u) then None
    else
      var before := Scan(g, opts, u, v, k - 1);
      var price := Price(g, opts, k - 1);
      if g.Target(k - 1) == v && price.Some?
         && (before.None? || price.value < Price(g, opts, before.value).value)
      then Some(k - 1) else before
  }

  /** An allowed edge of u's row, before position k, that leads to v. */
  ghost predicate UsableEdge(g: NavGraph, opts: SearchOptions, u: int, v: int, k: nat, i: nat) {
    g.Has(u) && g.EdgesBegin(u) <= i < k && g.Target(i) == v && Price(g, opts, i).Some?
  }

  /** The scan's pick is the first cheapest usable edge, and there is one iff any edge is usable. */
  lemma {:induction false} ScanIsFirstCheapest(
    g: NavGraph, opts: SearchOptions, u: int, v: int, k: nat, i: nat)
    requires UsableEdge(g, opts, u, v, k, i)
    ensures var pick := Scan(g, opts, u, v, k);
            && pick.Some?
            && Price(g, opts, pick.value).value <= Price(g, opts, i).value
            && (i < pick.value ==> Price(g, opts, pick.value).value < Price(g, opts, i).value)
    decreases k
  {
    if i < k - 1 {
      ScanIsFirstCheapest(g, opts, u, v, k - 1, i);
    } else if Scan(g, opts, u, v, k).Some? {
      assert i == k - 1;
    }
  }

  /** One hop between adjacent vertices: the price and length of the edge the search would take. */
  datatype Leg = Leg(cost: real, distance: real)

  ghost function Hop(g: NavGraph, opts: SearchOptions, u: int, v: int): Option<Leg> {
    var pick := Scan(g, opts, u, v, g.EdgesEnd(u));
    if pick.None? then None
    else Some(Leg(Price(g, opts, pick.value).value, g.edges[pick.value].distance))
  }

  /** Picks the cheapest allowed parallel edge from u to v; the first one wins a tie. */
  method SelectEdge(g: NavGraph, u: int, v: int, opts: SearchOptions)
    returns (best: Option<nat>, bestCost: real)
    requires g.Has(u)
    ensures best.None? <==> forall i: nat :: !UsableEdge(g, opts, u, v, g.EdgesEnd(u), i)
    ensures best.Some? ==>
              && UsableEdge(g, opts, u, v, g.EdgesEnd(u), best.value)
              && Price(g, opts, best.value) == Some(bestCost)
              && (forall i: nat :: UsableEdge(g, opts, u, v, g.EdgesEnd(u), i) ==>
                    && bestCost <= Price(g, opts, i).value
                    && (i < best.value ==> bestCost < Price(g, opts, i).value))
    ensures best == Scan(g, opts, u, v, g.EdgesEnd(u))
    ensures Hop(g, opts, u, v) ==
            if best.None? then None else Some(Leg(bestCost, g.edges[best.value].distance))
  {
    best, bestCost := None, 0.0;
    var row, end := g.EdgesBegin(u), g.EdgesEnd(u);
    for k := row to end
      invariant best == Scan(g, opts, u, v, k)
      invariant best.Some? ==> Price(g, opts, best.value) == Some(bestCost)
    {
      if g.edges[k].to == v {
        var allowed, extra := EdgeAllowed(g, opts, k);
        if allowed {
          var total := g.edges[k].distance + extra;
          if best.None? || total < bestCost {
            best, bestCost := Some(k), total;
          }
        }
      }
    }
    assert best.Some? ==> UsableEdge(g, opts, u, v, end, best.value);
    forall i: nat | UsableEdge(g, opts, u, v, end, i)
      ensures best.Some? && bestCost <= Price(g, opts, i).value
      ensures i < best.value ==> bestCost < Price(g, opts, i).value
    {
      ScanIsFirstCheapest(g, opts, u, v, end, i);
    }
  }

  // ---- Seeded endpoints ----------------------------------------------------------------------

  datatype SeededEndpoint = SeededEndpoint(vertex: int, cost: real, bearing: real)

  /** The position of the first cheapest endpoint that lands on v. */
  ghost function CheapestAt(es: seq<SeededEndpoint>, v: int): Option<nat>
    ensures CheapestAt(es, v).Some? ==> CheapestAt(es, v).value < |es| && es[CheapestAt(es, v).value].vertex == v
  {
    if es == [] then None
    else
      var before := CheapestAt(es[..|es| - 1], v);
      var e := es[|es| - 1];
      if e.vertex == v && (before.None? || e.cost < es[before.value].cost) then Some(|es| - 1) else before
  }

  /** CheapestAt finds an endpoint whenever one lands on v, never a dearer one, and the first on a tie. */
  lemma {:induction false} CheapestAtIsFirstCheapest(es: seq<SeededEndpoint>, v: int, i: nat)
    requires i < |es| && es[i].vertex == v
    ensures var c := CheapestAt(es, v);
            c.Some? && es[c.value].cost <= es[i].cost && (i < c.value ==> es[c.value].cost < es[i].cost)
  {
    if i < |es| - 1 {
      CheapestAtIsFirstCheapest(es[..|es| - 1], v, i);
    }
  }

  /** Seed costs are procedure distances, hence never negative. */
  ghost predicate SeedsNonNegative(es: seq<SeededEndpoint>) {
    forall i :: 0 <= i < |es| ==> es[i].cost >= 0.0
  }

  ghost function SeedAt(es: seq<SeededEndpoint>, v: int): real {
    var c := CheapestAt(es, v);
    if c.None? then -1.0 else es[c.value].cost
  }

  ghost function BearingAt(es: seq<SeededEndpoint>, v: int): real {
    var c := CheapestAt(es, v);
    if c.None? then NO_BEARING else es[c.value].bearing
  }

  ghost predicate IsSeedTable(table: seq<real>, es: seq<SeededEndpoint>, n: nat) {
    |table| == n && forall v :: 0 <= v < n ==> table[v] == SeedAt(es, v)
  }

  ghost predicate IsBearingTable(table: seq<real>, es: seq<SeededEndpoint>, n: nat) {
    |table| == n && forall v :: 0 <= v < n ==> table[v] == BearingAt(es, v)
  }

  /** Smallest seed cost per vertex, or -1 where no endpoint lands. */
  method BuildSeedTable(es: seq<SeededEndpoint>, n: nat) returns (seed: seq<real>)
    requires SeedsNonNegative(es)
    ensures IsSeedTable(seed, es, n)
  {
    seed := seq(n, _ => -1.0);
    for i := 0 to |es|
      invariant IsSeedTable(seed, es[..i], n)
    {
      assert es[..i + 1][..i] == es[..i];
      var e := es[i];
      ghost var was := seed;
      if 0 <= e.vertex < n {
        if seed[e.vertex] < 0.0 || e.cost < seed[e.vertex] {
          seed := seed[e.vertex := e.cost];
        }
      }
    }
    assert es[..|es|] == es;
  }

  /** The heading of the endpoint whose seed BuildSeedTable keeps. */
  method BuildBearingTable(es: seq<SeededEndpoint>, n: nat) returns (bearing: seq<real>)
    requires SeedsNonNegative(es)
    ensures IsBearingTable(bearing, es, n)
  {
    bearing := seq(n, _ => NO_BEARING);
    var bestSeed := seq(n, _ => -1.0);
    for i := 0 to |es|
      invariant IsSeedTable(bestSeed, es[..i], n)
      invariant IsBearingTable(bearing, es[..i], n)
    {
      assert es[..i + 1][..i] == es[..i];
      var e := es[i];
      if 0 <= e.vertex < n {
        if bestSeed[e.vertex] < 0.0 || e.cost < bestSeed[e.vertex] {
          bestSeed := bestSeed[e.vertex := e.cost];
          bearing := bearing[e.vertex := e.bearing];
        }
      }
    }
    assert es[..|es|] == es;
  }
}

/** How an airport attaches to the route network: pooled connections and the seeds the search starts from. */
module EndpointPlans {
  import opened Numbers
  import opened SearchModel

  const PROCEDURE_PREFER_NM := 15.0

  datatype ProcedureType = Sid | Star | Approach

  datatype ProcedureRef = ProcedureRef(kind: ProcedureType, name: string, transition: string, runway: string)

  /** A hand-off fix with the geographic distance flown to or from it and the procedures that use it. */
  datatype Connection = Connection(
    fix: int, seed: real, bearing: real, approachBearing: real, splice: int, spliceLeg: real,
    procedures: seq<ProcedureRef>)

  predicate IsApproachFront(c: Connection) {
    c.procedures != [] && c.procedures[0].kind == Approach
  }

  /** The bump the search charges an approach that competes with a spliced STAR. */
  function Bump(c: Connection, softPrefer: bool): real {
    if softPrefer && IsApproachFront(c) then PROCEDURE_PREFER_NM else 0.0
  }

  function EffectiveSeed(c: Connection, softPrefer: bool): real {
    c.seed + Bump(c, softPrefer)
  }

  ghost predicate DistinctFixes(cs: seq<Connection>) {
    forall i, j :: 0 <= i < j < |cs| ==> cs[i].fix != cs[j].fix
  }

  /** Every connection names a procedure that uses it. */
  ghost predicate AllServed(cs: seq<Connection>) {
    forall i :: 0 <= i < |cs| ==> cs[i].procedures != []
  }

  // ---- Merging --------------------------------------------------------------------------------

  function SwapFront(refs: seq<ProcedureRef>, k: nat): seq<ProcedureRef>
    requires refs != []
  {
    if k < |refs| then refs[0 := refs[k]][k := refs[0]] else refs
  }

  /** Two connections at one fix become one: all procedures, and everything else from the cheaper. */
  function Combined(c: Connection, incoming: Connection, softPrefer: bool): Connection {
    var merged := c.(procedures := c.procedures + incoming.procedures);
    if EffectiveSeed(incoming, softPrefer) < EffectiveSeed(merged, softPrefer) then
      merged.(seed := incoming.seed, bearing := incoming.bearing, approachBearing := incoming.approachBearing,
              splice := incoming.splice, spliceLeg := incoming.spliceLeg,
              procedures := if merged.procedures != [] then SwapFront(merged.procedures, |c.procedures|) else [])
    else merged
  }

  /** Same seed, headings, splice and front procedure. */
  ghost predicate SameGate(a: Connection, b: Connection)
    requires a.procedures != [] && b.procedures != []
  {
    && a.seed == b.seed && a.bearing == b.bearing && a.approachBearing == b.approachBearing
    && a.splice == b.splice && a.spliceLeg == b.spliceLeg && a.procedures[0] == b.procedures[0]
  }

  /** The merged connection searches at the cheaper effective seed, and its front procedure is the one that earned it. */
  lemma CombinedIsCheaper(c: Connection, incoming: Connection, softPrefer: bool)
    requires c.fix == incoming.fix && c.procedures != [] && incoming.procedures != []
    ensures var m := Combined(c, incoming, softPrefer);
            && m.fix == c.fix && m.procedures != [] && multiset(m.procedures) == multiset(c.procedures) + multiset(incoming.procedures)
            && EffectiveSeed(m, softPrefer) ==
               (if EffectiveSeed(incoming, softPrefer) < EffectiveSeed(c, softPrefer)
                then EffectiveSeed(incoming, softPrefer) else EffectiveSeed(c, softPrefer))
            && (if EffectiveSeed(incoming, softPrefer) < EffectiveSeed(c, softPrefer) then SameGate(m, incoming) else SameGate(m, c))
  {
    var all := c.procedures + incoming.procedures;
    assert all[0] == c.procedures[0] && all[|c.procedures|] == incoming.procedures[0];
    SwapKeepsRefs(all, |c.procedures|);
  }

  lemma SwapKeepsRefs(refs: seq<ProcedureRef>, k: nat)
    requires 0 < k < |refs|
    ensures SwapFront(refs, k)[0] == refs[k] && multiset(SwapFront(refs, k)) == multiset(refs)
  {
  }

  /** The position of the connection at a fix, or the length. */
  function PositionOf(cs: seq<Connection>, fix: int): (k: nat)
    ensures k <= |cs| && (k < |cs| ==> cs[k].fix == fix) && forall i :: 0 <= i < k ==> cs[i].fix != fix
  {
    if cs == [] || cs[0].fix == fix then 0
    else
      var k := PositionOf(cs[1..], fix);
      assert forall i :: 0 < i < 1 + k ==> cs[i] == cs[1..][i - 1];
      1 + k
  }

  function Merge(cs: seq<Connection>, incoming: Connection, softPrefer: bool): seq<Connection> {
    var k := PositionOf(cs, incoming.fix);
    if k < |cs| then cs[k := Combined(cs[k], incoming, softPrefer)] else cs + [incoming]
  }

  /** Folds one connection into the list, by fix. */
  method MergeConnection(byFix: seq<Connection>, incoming: Connection, softPrefer: bool) returns (out: seq<Connection>)
    ensures out == Merge(byFix, incoming, softPrefer)
    ensures DistinctFixes(byFix) ==> DistinctFixes(out)
    ensures DistinctFixes(byFix) ==> forall c: Connection :: c.fix != incoming.fix ==> (c in out <==> c in byFix)
    ensures exists c :: c in out && c.fix == incoming.fix
  {
    MergeLeavesOthers(byFix, incoming, softPrefer);
    out := byFix;
    for i := 0 to |byFix|
      invariant out == byFix
      invariant forall j :: 0 <= j < i ==> byFix[j].fix != incoming.fix
    {
      var c := out[i];
      if c.fix != incoming.fix {
        continue;
      }
      var firstIncoming := |c.procedures|;
      c := c.(procedures := c.procedures + incoming.procedures);
      if EffectiveSeed(incoming, softPrefer) < EffectiveSeed(c, softPrefer) {
        c := c.(seed := incoming.seed, bearing := incoming.bearing, approachBearing := incoming.approachBearing,
                splice := incoming.splice, spliceLeg := incoming.spliceLeg);
        if firstIncoming < |c.procedures| {
          c := c.(procedures := c.procedures[0 := c.procedures[firstIncoming]][firstIncoming := c.procedures[0]]);
        }
      }
      out := out[i := c];
      return;
    }
    out := out + [incoming];
  }

  /** The cheapest effective seed any connection of the list offers at a fix. */
  ghost function Offer(cs: seq<Connection>, fix: int, softPrefer: bool): Ext {
    if cs == [] then Inf
    else
      var before := Offer(cs[..|cs| - 1], fix, softPrefer);
      var c := cs[|cs| - 1];
      if c.fix == fix && Fin(EffectiveSeed(c, softPrefer)).Less(before) then Fin(EffectiveSeed(c, softPrefer)) else before
  }

  /** With one connection per fix, the offer is that connection's. */
  lemma {:induction false} OfferIsTheOne(cs: seq<Connection>, fix: int, softPrefer: bool)
    requires DistinctFixes(cs)
    ensures var k := PositionOf(cs, fix);
            Offer(cs, fix, softPrefer) == if k < |cs| then Fin(EffectiveSeed(cs[k], softPrefer)) else Inf
  {
    if cs != [] {
      var n := |cs| - 1;
      OfferIsTheOne(cs[..n], fix, softPrefer);
      var k, j := PositionOf(cs, fix), PositionOf(cs[..n], fix);
      assert j < n ==> cs[j].fix == fix;
      assert k < n ==> cs[..n][k].fix == fix;
    }
  }

  /** One connection per fix stays so, the incoming fix has one, and the others are as they were. */
  lemma MergeLeavesOthers(cs: seq<Connection>, incoming: Connection, softPrefer: bool)
    ensures var out := Merge(cs, incoming, softPrefer);
            && (DistinctFixes(cs) ==> DistinctFixes(out))
            && (DistinctFixes(cs) ==> forall c: Connection :: c.fix != incoming.fix ==> (c in out <==> c in cs))
            && exists c :: c in out && c.fix == incoming.fix
  {
    hide EffectiveSeed;
    var out := Merge(cs, incoming, softPrefer);
    var k := PositionOf(cs, incoming.fix);
    assert out[k].fix == incoming.fix && out[k] in out;
    forall c: Connection | c.fix != incoming.fix
      ensures c in out <==> c in cs
    {
      if c in cs {
        var j :| 0 <= j < |cs| && cs[j] == c;
        assert out[j] == c;
      }
      if c in out {
        var j :| 0 <= j < |out| && out[j] == c;
        assert cs[j] == c;
      }
    }
  }

  lemma MergeKeeps(cs: seq<Connection>, incoming: Connection, softPrefer: bool)
    requires DistinctFixes(cs) && AllServed(cs) && incoming.procedures != []
    ensures var out := Merge(cs, incoming, softPrefer);
            && DistinctFixes(out) && AllServed(out)
            && forall fix :: Offer(out, fix, softPrefer) ==
                 (if fix == incoming.fix && Fin(EffectiveSeed(incoming, softPrefer)).Less(Offer(cs, fix, softPrefer))
                  then Fin(EffectiveSeed(incoming, softPrefer)) else Offer(cs, fix, softPrefer))
  {
    hide EffectiveSeed, Combined;
    var out := Merge(cs, incoming, softPrefer);
    var k := PositionOf(cs, incoming.fix);
    if k < |cs| {
      CombinedIsCheaper(cs[k], incoming, softPrefer);
    }
    assert DistinctFixes(out) && AllServed(out);
    forall fix
      ensures Offer(out, fix, softPrefer) ==
                (if fix == incoming.fix && Fin(EffectiveSeed(incoming, softPrefer)).Less(Offer(cs, fix, softPrefer))
                 then Fin(EffectiveSeed(incoming, softPrefer)) else Offer(cs, fix, softPrefer))
    {
      OfferIsTheOne(cs, fix, softPrefer);
      OfferIsTheOne(out, fix, softPrefer);
      SamePosition(cs, incoming, softPrefer, fix);
    }
  }

  lemma SamePosition(cs: seq<Connection>, incoming: Connection, softPrefer: bool, fix: int)
    requires DistinctFixes(cs)
    ensures var out := Merge(cs, incoming, softPrefer);
            var k, j := PositionOf(cs, fix), PositionOf(out, fix);
            && (fix != incoming.fix ==> (j < |out| <==> k < |cs|) && (k < |cs| ==> out[j] == cs[k]))
            && (fix == incoming.fix ==>
                  j < |out| && out[j] == if k < |cs| then Combined(cs[k], incoming, softPrefer) else incoming)
  {
    var out := Merge(cs, incoming, softPrefer);
    var k, j := PositionOf(cs, fix), PositionOf(out, fix);
    assert k < |cs| ==> out[k].fix == fix;
    assert k == |cs| && fix == incoming.fix ==> out[|cs|].fix == fix;
  }

  /** The list after each of src has been merged in, in order. */
  ghost function Folded(dst: seq<Connection>, src: seq<Connection>, softPrefer: bool): seq<Connection> {
    if src == [] then dst
    else Merge(Folded(dst, src[..|src| - 1], softPrefer), src[|src| - 1], softPrefer)
  }

  /** Some connection of the list has this fix and this gate. */
  ghost predicate Gated(cs: seq<Connection>, c: Connection) {
    c.procedures != [] && exists d :: d in cs && d.procedures != [] && d.fix == c.fix && SameGate(c, d)
  }

  /** A merged connection's seed, headings, splice and front procedure all come from one of those merged. */
  lemma {:induction false} FoldedIsGated(dst: seq<Connection>, src: seq<Connection>, softPrefer: bool)
    requires AllServed(dst) && AllServed(src)
    ensures forall c :: c in Folded(dst, src, softPrefer) ==> Gated(dst + src, c)
    decreases |src|
  {
    hide EffectiveSeed, Combined, SameGate;
    if src == [] {
      assert dst + src == dst;
      forall c | c in dst
        ensures Gated(dst + src, c)
      {
        GateOfItself(c);
      }
    } else {
      var front, last := src[..|src| - 1], src[|src| - 1];
      var before, all := Folded(dst, front, softPrefer), dst + src;
      FoldedIsGated(dst, front, softPrefer);
      assert all == dst + front + [last];
      forall c | c in Folded(dst, src, softPrefer)
        ensures Gated(all, c)
      {
        MergeIsGated(before, last, softPrefer, c);
        if c == last {
          GateOfItself(c);
          assert last in all;
        } else if c in before {
          GatedMore(dst + front, all, c);
        } else {
          var k := PositionOf(before, last.fix);
          GatedMore(dst + front, all, before[k]);
          CombinedIsCheaper(before[k], last, softPrefer);
          assert last in all;
          GateFollows(all, before[k], last, c);
        }
      }
    }
  }

  lemma GateOfItself(c: Connection)
    requires c.procedures != []
    ensures SameGate(c, c)
  {
  }

  lemma MergeIsGated(cs: seq<Connection>, incoming: Connection, softPrefer: bool, c: Connection)
    requires c in Merge(cs, incoming, softPrefer)
    ensures c in cs || c == incoming
         || var k := PositionOf(cs, incoming.fix); k < |cs| && c == Combined(cs[k], incoming, softPrefer)
  {
    hide Combined;
    var k := PositionOf(cs, incoming.fix);
    var out := Merge(cs, incoming, softPrefer);
    var i :| 0 <= i < |out| && out[i] == c;
    assert i < |cs| && i != k ==> out[i] == cs[i];
  }

  lemma GatedMore(cs: seq<Connection>, more: seq<Connection>, c: Connection)
    requires Gated(cs, c) && forall d :: d in cs ==> d in more
    ensures Gated(more, c)
  {
    hide SameGate;
  }

  lemma GateFollows(cs: seq<Connection>, a: Connection, b: Connection, c: Connection)
    requires Gated(cs, a) && b in cs && b.procedures != [] && c.procedures != [] && c.fix == a.fix == b.fix
    requires SameGate(c, a) || SameGate(c, b)
    ensures Gated(cs, c)
  {
    if SameGate(c, a) {
      var d :| d in cs && d.procedures != [] && d.fix == a.fix && SameGate(a, d);
      assert SameGate(c, d);
    }
  }

  method MergeAll(dst: seq<Connection>, src: seq<Connection>, softPrefer: bool) returns (out: seq<Connection>)
    requires DistinctFixes(dst) && AllServed(dst) && AllServed(src)
    ensures DistinctFixes(out) && AllServed(out)
    ensures forall fix :: Offer(out, fix, softPrefer) == Offer(dst + src, fix, softPrefer)
    ensures out == Folded(dst, src, softPrefer)
  {
    hide Merge, EffectiveSeed, Ext.Less;
    out := dst;
    assert dst + src[..0] == dst;
    for i := 0 to |src|
      invariant DistinctFixes(out) && AllServed(out)
      invariant forall fix :: Offer(out, fix, softPrefer) == Offer(dst + src[..i], fix, softPrefer)
      invariant out == Folded(dst, src[..i], softPrefer)
    {
      assert src[..i + 1][..i] == src[..i];
      MergeKeeps(out, src[i], softPrefer);
      OfferNext(dst, src, i, softPrefer);
      out := MergeConnection(out, src[i], softPrefer);
    }
    assert src[..|src|] == src;
  }

  lemma OfferNext(dst: seq<Connection>, src: seq<Connection>, i: nat, softPrefer: bool)
    requires i < |src|
    ensures forall fix :: Offer(dst + src[..i + 1], fix, softPrefer) ==
                          (if fix == src[i].fix && Fin(EffectiveSeed(src[i], softPrefer)).Less(Offer(dst + src[..i], fix, softPrefer))
                           then Fin(EffectiveSeed(src[i], softPrefer)) else Offer(dst + src[..i], fix, softPrefer))
  {
    var next := dst + src[..i + 1];
    assert next[..|next| - 1] == dst + src[..i];
    assert next[|next| - 1] == src[i];
  }

  // ---- The mixed arrival pool -------------------------------------------------------------------

  predicate SeedBefore(a: Connection, b: Connection, softPrefer: bool) {
    var x, y := EffectiveSeed(a, softPrefer), EffectiveSeed(b, softPrefer);
    if x != y then x < y else a.fix < b.fix
  }

  ghost predicate SeedSorted(cs: seq<Connection>, softPrefer: bool) {
    forall i, j :: 0 <= i < j < |cs| ==> SeedBefore(cs[i], cs[j], softPrefer)
  }

  method InsertBySeed(cs: seq<Connection>, c: Connection, softPrefer: bool) returns (out: seq<Connection>)
    requires SeedSorted(cs, softPrefer) && DistinctFixes(cs) && forall d :: d in cs ==> d.fix != c.fix
    ensures SeedSorted(out, softPrefer) && DistinctFixes(out) && |out| == |cs| + 1
    ensures forall d :: d in out <==> d in cs || d == c
  {
    var k := 0;
    while k < |cs| && SeedBefore(cs[k], c, softPrefer)
      invariant 0 <= k <= |cs|
      invariant forall j :: 0 <= j < k ==> SeedBefore(cs[j], c, softPrefer)
    {
      k := k + 1;
    }
    InsertedInOrder(cs, c, k, softPrefer);
    out := cs[..k] + [c] + cs[k..];
  }

  lemma InsertedInOrder(cs: seq<Connection>, c: Connection, k: nat, softPrefer: bool)
    requires SeedSorted(cs, softPrefer) && DistinctFixes(cs) && (forall d :: d in cs ==> d.fix != c.fix) && k <= |cs|
    requires forall j :: 0 <= j < k ==> SeedBefore(cs[j], c, softPrefer)
    requires k < |cs| ==> !SeedBefore(cs[k], c, softPrefer)
    ensures var out := cs[..k] + [c] + cs[k..];
            SeedSorted(out, softPrefer) && DistinctFixes(out) && forall d :: d in out <==> d in cs || d == c
  {
    var out := cs[..k] + [c] + cs[k..];
    assert cs == cs[..k] + cs[k..];
    hide SeedBefore;
    forall j | k <= j < |cs|
      ensures SeedBefore(c, cs[j], softPrefer)
    {
      SeedsCompare(c, cs[k], cs[j], softPrefer);
    }
    InsertedAt(cs, c, k);
    forall i, j | 0 <= i < j < |out|
      ensures SeedBefore(out[i], out[j], softPrefer) && out[i].fix != out[j].fix
    {
    }
  }

  /** Where the elements of a list stand once one more is put in. */
  lemma InsertedAt(cs: seq<Connection>, c: Connection, k: nat)
    requires k <= |cs|
    ensures var out := cs[..k] + [c] + cs[k..];
            && |out| == |cs| + 1 && out[k] == c
            && (forall i :: 0 <= i < k ==> out[i] == cs[i]) && (forall i :: k < i < |out| ==> out[i] == cs[i - 1])
  {
  }

  /** Seed order is total on different fixes, and transitive. */
  lemma SeedsCompare(a: Connection, b: Connection, c: Connection, softPrefer: bool)
    ensures a.fix != b.fix ==> SeedBefore(a, b, softPrefer) || SeedBefore(b, a, softPrefer)
    ensures SeedBefore(a, b, softPrefer) && (b == c || SeedBefore(b, c, softPrefer)) ==> SeedBefore(a, c, softPrefer)
  {
  }

  /** Orders connections by effective seed, then fix. */
  method SortConnectionsBySeed(cs: seq<Connection>, softPrefer: bool) returns (out: seq<Connection>)
    requires DistinctFixes(cs)
    ensures SeedSorted(out, softPrefer) && DistinctFixes(out) && |out| == |cs|
    ensures forall d :: d in out <==> d in cs
  {
    hide SeedSorted, SeedBefore;
    out := [];
    NoneUnsorted(softPrefer);
    for i := 0 to |cs|
      invariant SeedSorted(out, softPrefer) && DistinctFixes(out) && |out| == i
      invariant forall d :: d in out <==> d in cs[..i]
    {
      assert cs[..i + 1] == cs[..i] + [cs[i]];
      out := InsertBySeed(out, cs[i], softPrefer);
    }
    assert cs[..|cs|] == cs;
  }

  lemma NoneUnsorted(softPrefer: bool)
    ensures SeedSorted([], softPrefer)
  {
  }

  ghost predicate Presence(cs: seq<Connection>, kind: ProcedureType) {
    exists i, j :: 0 <= i < |cs| && 0 <= j < |cs[i].procedures| && cs[i].procedures[j].kind == kind
  }

  /** Which kinds of arrival procedure a list offers. */
  method ScanProcedureTypes(cs: seq<Connection>) returns (anyStar: bool, anyApproach: bool)
    ensures anyStar <==> Presence(cs, Star)
    ensures anyApproach <==> Presence(cs, Approach)
  {
    anyStar, anyApproach := false, false;
    for i := 0 to |cs|
      invariant anyStar <==> Presence(cs[..i], Star)
      invariant anyApproach <==> Presence(cs[..i], Approach)
    {
      var refs := cs[i].procedures;
      var star, approach := false, false;
      for j := 0 to |refs|
        invariant star <==> exists k :: 0 <= k < j && refs[k].kind == Star
        invariant approach <==> exists k :: 0 <= k < j && refs[k].kind == Approach
      {
        star := star || refs[j].kind == Star;
        approach := approach || refs[j].kind == Approach;
      }
      PresenceNext(cs, i, Star);
      PresenceNext(cs, i, Approach);
      anyStar, anyApproach := anyStar || star, anyApproach || approach;
    }
    assert cs[..|cs|] == cs;
  }

  lemma PresenceNext(cs: seq<Connection>, i: nat, kind: ProcedureType)
    requires i < |cs|
    ensures Presence(cs[..i + 1], kind) <==>
              Presence(cs[..i], kind) || exists k :: 0 <= k < |cs[i].procedures| && cs[i].procedures[k].kind == kind
  {
    var next, before := cs[..i + 1], cs[..i];
    if Presence(before, kind) {
      var a, b :| 0 <= a < |before| && 0 <= b < |before[a].procedures| && before[a].procedures[b].kind == kind;
      assert next[a].procedures[b].kind == kind;
    }
    if k :| 0 <= k < |cs[i].procedures| && cs[i].procedures[k].kind == kind {
      assert next[i].procedures[k].kind == kind;
    }
    if Presence(next, kind) {
      var a, b :| 0 <= a < |next| && 0 <= b < |next[a].procedures| && next[a].procedures[b].kind == kind;
      if a < i {
        assert before[a].procedures[b].kind == kind;
      }
    }
  }

  datatype EndpointPlan = EndpointPlan(
    connections: seq<Connection>, airport: string, usedProcedures: bool, usedApproach: bool, hasProcedures: bool,
    softPrefer: bool)

  /** When spliced STARs and approaches share the arrival pool, every connection in it names its procedure. */
  ghost predicate PoolIsServed(plan: EndpointPlan) {
    DistinctFixes(plan.connections) && (plan.softPrefer ==> AllServed(plan.connections))
  }

  /** Off-network arrivals: spliced STARs and approaches in one pool, cheapest effective seed per fix, in order. */
  method PoolArrivals(spliced: seq<Connection>, approaches: seq<Connection>, airport: string, hasProcedures: bool)
    returns (plan: EndpointPlan)
    requires DistinctFixes(spliced) && AllServed(spliced) && AllServed(approaches)
    ensures PoolIsServed(plan) && SeedSorted(plan.connections, plan.softPrefer)
    ensures plan.softPrefer <==> spliced != [] && approaches != []
    ensures forall fix :: Offer(plan.connections, fix, plan.softPrefer) == Offer(spliced + approaches, fix, plan.softPrefer)
    ensures plan.usedProcedures <==> Presence(plan.connections, Star) && !Presence(plan.connections, Approach)
    ensures plan.usedApproach <==> Presence(plan.connections, Approach) && !Presence(plan.connections, Star)
    ensures plan.airport == airport && plan.hasProcedures == hasProcedures
    ensures forall c :: c in plan.connections <==> c in Folded(spliced, approaches, plan.softPrefer)
  {
    hide Offer, SeedSorted, SeedBefore, Presence;
    var softPrefer := spliced != [] && approaches != [];
    var pool := MergeAll(spliced, approaches, softPrefer);
    var sorted := SortConnectionsBySeed(pool, softPrefer);
    forall fix
      ensures Offer(sorted, fix, softPrefer) == Offer(pool, fix, softPrefer)
    {
      SameOffer(pool, sorted, fix, softPrefer);
    }
    var star, approach := ScanProcedureTypes(sorted);
    plan := EndpointPlan(sorted, airport, star && !approach, approach && !star, hasProcedures, softPrefer);
    SameServed(pool, sorted);
  }

  lemma SameServed(a: seq<Connection>, b: seq<Connection>)
    requires AllServed(a) && forall d :: d in b <==> d in a
    ensures AllServed(b)
  {
    forall i | 0 <= i < |b|
      ensures b[i].procedures != []
    {
      assert b[i] in a;
    }
  }

  lemma SameOffer(a: seq<Connection>, b: seq<Connection>, fix: int, softPrefer: bool)
    requires DistinctFixes(a) && DistinctFixes(b) && forall d :: d in b <==> d in a
    ensures Offer(a, fix, softPrefer) == Offer(b, fix, softPrefer)
  {
    OfferIsTheOne(a, fix, softPrefer);
    OfferIsTheOne(b, fix, softPrefer);
    hide Offer;
    var k, j := PositionOf(a, fix), PositionOf(b, fix);
    if k < |a| {
      assert a[k] in b;
      var i :| 0 <= i < |b| && b[i] == a[k];
      assert i == j;
    }
    if j < |b| {
      assert b[j] in a;
    }
  }

  // ---- Search endpoints -----------------------------------------------------------------------

  function EndpointOf(c: Connection, softPrefer: bool): SeededEndpoint {
    SeededEndpoint(c.fix, EffectiveSeed(c, softPrefer), c.bearing)
  }

  /** One seeded endpoint per connection. */
  method ToSearchEndpoints(cs: seq<Connection>, softPrefer: bool) returns (out: seq<SeededEndpoint>)
    ensures |out| == |cs| && forall i :: 0 <= i < |cs| ==> out[i] == EndpointOf(cs[i], softPrefer)
    ensures forall i :: 0 <= i < |cs| ==>
              && out[i].vertex == cs[i].fix && out[i].bearing == cs[i].bearing
              && out[i].cost == cs[i].seed + (if softPrefer && cs[i].procedures != [] && cs[i].procedures[0].kind == Approach
                                              then 15.0 else 0.0)
    ensures out == EndpointsOf(cs, softPrefer)
  {
    out := [];
    for i := 0 to |cs|
      invariant |out| == i && forall j :: 0 <= j < i ==> out[j] == EndpointOf(cs[j], softPrefer)
    {
      out := out + [SeededEndpoint(cs[i].fix, EffectiveSeed(cs[i], softPrefer), cs[i].bearing)];
    }
  }

  ghost function EndpointsOf(cs: seq<Connection>, softPrefer: bool): seq<SeededEndpoint> {
    seq(|cs|, i requires 0 <= i < |cs| => EndpointOf(cs[i], softPrefer))
  }

  function WithoutAvoided(es: seq<SeededEndpoint>, avoid: seq<int>): (out: seq<SeededEndpoint>)
    ensures forall e :: e in out <==> e in es && e.vertex !in avoid
  {
    if es == [] then []
    else WithoutAvoided(es[..|es| - 1], avoid) + if es[|es| - 1].vertex in avoid then [] else [es[|es| - 1]]
  }

  /** Dropping the avoided fixes leaves every other fix's seed alone. */
  lemma {:induction false} AvoidedSeed(es: seq<SeededEndpoint>, avoid: seq<int>, v: int)
    ensures SeedAt(WithoutAvoided(es, avoid), v) == if v in avoid then -1.0 else SeedAt(es, v)
  {
    hide SeedAt, CheapestAt;
    if es == [] {
      NoSeed(v);
    } else {
      var before := es[..|es| - 1];
      AvoidedSeed(before, avoid, v);
      SeedOfLast(es, v);
      if es[|es| - 1].vertex !in avoid {
        if v !in avoid {
          SameSeeded(before, avoid, v);
        }
        var out := WithoutAvoided(before, avoid) + [es[|es| - 1]];
        assert out == WithoutAvoided(es, avoid);
        assert out[..|out| - 1] == WithoutAvoided(before, avoid);
        SeedOfLast(out, v);
      } else {
        assert WithoutAvoided(es, avoid) == WithoutAvoided(before, avoid);
      }
    }
  }

  lemma SameSeeded(es: seq<SeededEndpoint>, avoid: seq<int>, v: int)
    requires v !in avoid
    ensures CheapestAt(WithoutAvoided(es, avoid), v).None? <==> CheapestAt(es, v).None?
  {
    hide CheapestAt;
    var out := WithoutAvoided(es, avoid);
    AnySeed(es, v);
    AnySeed(out, v);
    if CheapestAt(es, v).Some? {
      var e :| e in es && e.vertex == v;
      assert e in out;
    }
  }

  lemma NoSeed(v: int)
    ensures SeedAt([], v) == -1.0
  {
  }

  /** A seed table entry comes from an endpoint at that vertex, if there is one. */
  lemma AnySeed(es: seq<SeededEndpoint>, v: int)
    ensures CheapestAt(es, v).Some? <==> exists e :: e in es && e.vertex == v
  {
    if CheapestAt(es, v).Some? {
      assert es[CheapestAt(es, v).value] in es;
    }
    forall e | e in es && e.vertex == v
      ensures CheapestAt(es, v).Some?
    {
      var i :| 0 <= i < |es| && es[i] == e;
      CheapestAtIsFirstCheapest(es, v, i);
    }
  }

  lemma SeedOfLast(es: seq<SeededEndpoint>, v: int)
    requires es != []
    ensures var e, before := es[|es| - 1], es[..|es| - 1];
            SeedAt(es, v) ==
            if e.vertex == v && (CheapestAt(before, v).None? || e.cost < SeedAt(before, v)) then e.cost else SeedAt(before, v)
  {
    var before := es[..|es| - 1];
    if CheapestAt(before, v).Some? {
      assert before[CheapestAt(before, v).value] == es[CheapestAt(before, v).value];
    }
  }

  /** With one connection per fix, the search is seeded with that connection's effective seed. */
  lemma SeedIsEffective(cs: seq<Connection>, softPrefer: bool, k: nat)
    requires DistinctFixes(cs) && k < |cs|
    ensures SeedAt(EndpointsOf(cs, softPrefer), cs[k].fix) == EffectiveSeed(cs[k], softPrefer)
  {
    var es := EndpointsOf(cs, softPrefer);
    CheapestAtIsFirstCheapest(es, cs[k].fix, k);
    var i := CheapestAt(es, cs[k].fix).value;
    assert cs[i].fix == es[i].vertex == cs[k].fix;
  }
}

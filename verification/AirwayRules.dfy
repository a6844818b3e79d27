/** Airway rules: blocking or penalising the legs of named airways in named regions. */
module AirwayRules {
  import opened Numbers
  import opened SearchModel
  import opened DesignatorLists
  import opened BitMasks

  const MAX_RULES := 32

  datatype Action = PenalizeLeg | BlockLeg

  datatype Match = Exact | Prefix

  datatype AirwayRule = AirwayRule(
    regions: seq<string>, designators: seq<string>, matching: Match, action: Action, fraction: real)

  predicate StartsWith(s: string, prefix: string) { prefix <= s }

  predicate MatchesAnyPrefix(region: string, prefixes: seq<string>) {
    prefixes == [] || exists p :: p in prefixes && StartsWith(region, p)
  }

  predicate MatchesOne(designator: string, wanted: string, matching: Match) {
    wanted == "" || if matching.Prefix? then StartsWith(designator, wanted) else designator == wanted
  }

  predicate MatchesAnyDesignator(designator: string, wanted: seq<string>, matching: Match) {
    wanted == [] || exists w :: w in wanted && MatchesOne(designator, w, matching)
  }

  // ---- What a rule list means -------------------------------------------------------------------

  /** Some name of a designator field is one the rule lists. */
  ghost predicate NamesAirway(rule: AirwayRule, name: string) {
    exists d :: d in Designators(name) && MatchesAnyDesignator(d, rule.designators, rule.matching)
  }

  /** An edge as the rules see it: the regions at its ends, and its airway, absent on a direct edge. */
  datatype RuledEdge = RuledEdge(fromRegion: string, toRegion: string, airway: Option<string>, distance: real)

  ghost predicate Applies(rule: AirwayRule, e: RuledEdge) {
    && e.airway.Some? && NamesAirway(rule, e.airway.value)
    && (MatchesAnyPrefix(e.fromRegion, rule.regions) || MatchesAnyPrefix(e.toRegion, rule.regions))
  }

  ghost predicate Blocked(rules: seq<AirwayRule>, e: RuledEdge) {
    exists i :: 0 <= i < |rules| && rules[i].action.BlockLeg? && Applies(rules[i], e)
  }

  function Share(rule: AirwayRule): real {
    if rule.action.BlockLeg? || rule.fraction < 0.0 then 0.0 else rule.fraction
  }

  /** The shares of all rules that apply. */
  ghost function TotalShare(rules: seq<AirwayRule>, e: RuledEdge): (sum: real)
    ensures sum >= 0.0
  {
    if rules == [] then 0.0
    else
      TotalShare(rules[..|rules| - 1], e) + if Applies(rules[|rules| - 1], e) then Share(rules[|rules| - 1]) else 0.0
  }

  ghost function Verdict(rules: seq<AirwayRule>, e: RuledEdge): EdgeVerdict {
    if Blocked(rules, e) then EdgeVerdict(false, 0.0) else EdgeVerdict(true, e.distance * TotalShare(rules, e))
  }

  /** Rules never charge less than nothing, and leave direct edges alone. */
  lemma {:induction false} VerdictIsSafe(rules: seq<AirwayRule>, e: RuledEdge)
    requires e.distance >= 0.0
    ensures Verdict(rules, e).extraCost >= 0.0
    ensures e.airway.None? ==> Verdict(rules, e) == EdgeVerdict(true, 0.0)
  {
    TotalOfNone(rules, e);
    assert e.distance * TotalShare(rules, e) >= 0.0;
  }

  lemma {:induction false} TotalOfNone(rules: seq<AirwayRule>, e: RuledEdge)
    ensures e.airway.None? ==> TotalShare(rules, e) == 0.0
  {
    if rules != [] {
      TotalOfNone(rules[..|rules| - 1], e);
    }
  }

  /** An exact list without an empty entry names its own airways only; a prefix list names whatever starts with an entry. */
  lemma ListsNameAirways(name: string, wanted: seq<string>)
    requires wanted != [] && "" !in wanted
    ensures MatchesAnyDesignator(name, wanted, Exact) <==> name in wanted
    ensures MatchesAnyDesignator(name, wanted, Prefix) <==> exists n: nat :: n <= |name| && name[..n] in wanted
    ensures forall more :: MatchesAnyDesignator(name, wanted, Prefix) ==> MatchesAnyDesignator(name + more, wanted, Prefix)
  {
    if MatchesAnyDesignator(name, wanted, Prefix) {
      var w :| w in wanted && MatchesOne(name, w, Prefix);
      assert name[..|w|] == w;
      forall more
        ensures MatchesAnyDesignator(name + more, wanted, Prefix)
      {
        assert (name + more)[..|w|] == w && MatchesOne(name + more, w, Prefix);
      }
    }
    if n: nat :| n <= |name| && name[..n] in wanted {
      assert MatchesOne(name, name[..n], Prefix);
    }
    if name in wanted {
      assert MatchesOne(name, name, Exact);
    }
  }

  /** A region list names what starts with an entry; an empty list or an empty entry names every region. */
  lemma ListsNameRegions(region: string, prefixes: seq<string>)
    ensures MatchesAnyPrefix(region, prefixes) <==>
              prefixes == [] || exists n: nat :: n <= |region| && region[..n] in prefixes
    ensures "" in prefixes ==> MatchesAnyPrefix(region, prefixes)
  {
    if MatchesAnyPrefix(region, prefixes) && prefixes != [] {
      var p :| p in prefixes && StartsWith(region, p);
      assert region[..|p|] == p;
    }
    if n: nat :| n <= |region| && region[..n] in prefixes {
      assert StartsWith(region, region[..n]);
    }
    assert StartsWith(region, "");
  }

  /** A region at either end is enough, and so is one name of a shared airway field. */
  lemma EitherEndCounts(rule: AirwayRule, e: RuledEdge, name: string)
    requires e.airway.Some? && name in Designators(e.airway.value)
    requires rule.designators == [] || (rule.matching.Exact? && name in rule.designators)
    requires MatchesAnyPrefix(e.fromRegion, rule.regions) || MatchesAnyPrefix(e.toRegion, rule.regions)
    ensures Applies(rule, e)
  {
    assert MatchesAnyDesignator(name, rule.designators, rule.matching) by {
      assert rule.designators != [] ==> MatchesOne(name, name, rule.matching);
    }
  }

  /** Two rule lists together block what either blocks, and otherwise charge both charges. */
  lemma RuleListsAddUp(a: seq<AirwayRule>, b: seq<AirwayRule>, e: RuledEdge)
    ensures Verdict(a + b, e).allowed <==> Verdict(a, e).allowed && Verdict(b, e).allowed
    ensures Verdict(a + b, e).allowed ==> Verdict(a + b, e).extraCost == Verdict(a, e).extraCost + Verdict(b, e).extraCost
  {
    hide Applies, TotalShare, Blocked;
    SharesAddUp(a, b, e);
    BlocksAddUp(a, b, e);
    Distributes(e.distance, TotalShare(a, e), TotalShare(b, e));
  }

  lemma Distributes(d: real, x: real, y: real)
    ensures d * (x + y) == d * x + d * y
  {
  }

  lemma {:induction false} SharesAddUp(a: seq<AirwayRule>, b: seq<AirwayRule>, e: RuledEdge)
    ensures TotalShare(a + b, e) == TotalShare(a, e) + TotalShare(b, e)
    decreases |b|
  {
    hide Applies;
    if b == [] {
      assert a + b == a;
    } else {
      SharesAddUp(a, b[..|b| - 1], e);
      assert (a + b)[..|a + b| - 1] == a + b[..|b| - 1];
    }
  }

  lemma BlocksAddUp(a: seq<AirwayRule>, b: seq<AirwayRule>, e: RuledEdge)
    ensures Blocked(a + b, e) <==> Blocked(a, e) || Blocked(b, e)
  {
    hide Applies;
    if i :| 0 <= i < |b| && b[i].action.BlockLeg? && Applies(b[i], e) {
      assert (a + b)[|a| + i] == b[i];
    }
    if i :| 0 <= i < |a| && a[i].action.BlockLeg? && Applies(a[i], e) {
      assert (a + b)[i] == a[i];
    }
  }

  /** One rule that applies: it blocks, or charges its share of the distance, never less than nothing. */
  lemma OneRule(rule: AirwayRule, e: RuledEdge)
    ensures !Applies(rule, e) ==> Verdict([rule], e) == EdgeVerdict(true, 0.0)
    ensures Applies(rule, e) && rule.action.BlockLeg? ==> !Verdict([rule], e).allowed
    ensures Applies(rule, e) && rule.action.PenalizeLeg? && rule.fraction >= 0.0 ==>
              Verdict([rule], e) == EdgeVerdict(true, e.distance * rule.fraction)
  {
    hide Applies;
    assert [rule][..0] == [] && [rule][0] == rule;
    assert TotalShare([rule], e) == if Applies(rule, e) then Share(rule) else 0.0;
  }

  // ---- The mask tables ------------------------------------------------------------------------

  datatype MaskTables = MaskTables(vertexMask: seq<Mask>, airwayMask: seq<Mask>, blockBits: Mask, fractions: seq<real>)

  /** Bit i of a mask is set exactly for the rules that pass a test. */
  ghost predicate RegionBits(m: Mask, rules: seq<AirwayRule>, n: nat, region: string) {
    forall i: nat :: Has(m, i) <==> i < n && i < |rules| && MatchesAnyPrefix(region, rules[i].regions)
  }

  ghost predicate AirwayBits(m: Mask, rules: seq<AirwayRule>, name: string) {
    forall i: nat :: Has(m, i) <==> i < |rules| && NamesAirway(rules[i], name)
  }

  ghost predicate BlockBits(m: Mask, rules: seq<AirwayRule>, n: nat) {
    forall i: nat :: Has(m, i) <==> i < n && i < |rules| && rules[i].action.BlockLeg?
  }

  /** The tables encode the rules for these vertices' regions and airway names; name 0 is the direct edge's. */
  ghost predicate Resolved(t: MaskTables, rules: seq<AirwayRule>, regions: seq<string>, names: seq<string>) {
    && |t.vertexMask| == |regions| && |t.airwayMask| == |names| && |t.fractions| == |rules| <= MAX_RULES
    && (forall v :: 0 <= v < |regions| ==> RegionBits(t.vertexMask[v], rules, |rules|, regions[v]))
    && (names != [] ==> t.airwayMask[0] == 0)
    && (forall id :: 0 < id < |names| ==> AirwayBits(t.airwayMask[id], rules, names[id]))
    && BlockBits(t.blockBits, rules, |rules|)
    && (forall i :: 0 <= i < |rules| ==> t.fractions[i] == Share(rules[i]))
  }

  lemma NoRegionBits(rules: seq<AirwayRule>, region: string)
    ensures RegionBits(0, rules, 0, region)
  {
    forall i: nat ensures !Has(0, i) { NothingInZero(i); }
  }

  lemma NoBlockBits(rules: seq<AirwayRule>)
    ensures BlockBits(0, rules, 0)
  {
    forall i: nat ensures !Has(0, i) { NothingInZero(i); }
  }

  method RegionMask(rules: seq<AirwayRule>, region: string) returns (mask: Mask)
    requires |rules| <= MAX_RULES
    ensures RegionBits(mask, rules, |rules|, region)
  {
    hide Has, One, Or, And, MatchesAnyPrefix;
    mask := 0;
    NoRegionBits(rules, region);
    for i := 0 to |rules|
      invariant RegionBits(mask, rules, i, region)
    {
      if MatchesAnyPrefix(region, rules[i].regions) {
        SetBit(mask, i);
        mask := Or(mask, One(i));
      }
    }
  }

  /** Bit i says whether rule i names one of the designators seen so far. */
  ghost predicate SeenBits(m: Mask, rules: seq<AirwayRule>, seen: seq<string>) {
    forall i: nat :: Has(m, i) <==> i < |rules| && SeenBy(rules[i], seen)
  }

  ghost predicate SeenBy(rule: AirwayRule, seen: seq<string>) {
    exists d :: d in seen && MatchesAnyDesignator(d, rule.designators, rule.matching)
  }

  lemma SeenNext(rule: AirwayRule, seen: seq<string>, d: string)
    ensures SeenBy(rule, seen + [d]) <==> SeenBy(rule, seen) || MatchesAnyDesignator(d, rule.designators, rule.matching)
  {
    hide MatchesAnyDesignator;
    assert forall x :: x in seen + [d] <==> x in seen || x == d;
  }

  /** Adds the rules that one designator satisfies. */
  method AddDesignator(rules: seq<AirwayRule>, mask: Mask, ghost seen: seq<string>, d: string) returns (out: Mask)
    requires |rules| <= MAX_RULES && SeenBits(mask, rules, seen)
    ensures SeenBits(out, rules, seen + [d])
  {
    hide Has, One, Or, And, MatchesAnyDesignator, SeenBy;
    out := mask;
    for i := 0 to |rules|
      invariant forall j: nat :: Has(out, j) <==>
        j < |rules| && (SeenBy(rules[j], seen) || (j < i && MatchesAnyDesignator(d, rules[j].designators, rules[j].matching)))
    {
      if MatchesAnyDesignator(d, rules[i].designators, rules[i].matching) {
        SetBit(out, i);
        out := Or(out, One(i));
      }
    }
    forall j: nat | j < |rules|
      ensures SeenBy(rules[j], seen + [d]) <==>
                SeenBy(rules[j], seen) || MatchesAnyDesignator(d, rules[j].designators, rules[j].matching)
    {
      SeenNext(rules[j], seen, d);
    }
  }

  method AirwayMask(rules: seq<AirwayRule>, name: string) returns (mask: Mask)
    requires |rules| <= MAX_RULES
    ensures AirwayBits(mask, rules, name)
  {
    hide Has, MatchesAnyDesignator;
    mask := 0;
    var names := SplitDesignators(name);
    forall i: nat ensures !Has(0, i) { NothingInZero(i); }
    for k := 0 to |names|
      invariant SeenBits(mask, rules, names[..k])
    {
      assert names[..k + 1] == names[..k] + [names[k]];
      mask := AddDesignator(rules, mask, names[..k], names[k]);
    }
    assert names[..|names|] == names;
  }

  /** Every remembered mask is its region's. */
  ghost predicate MemoOk(memo: map<string, Mask>, rules: seq<AirwayRule>) {
    forall region :: region in memo ==> RegionBits(memo[region], rules, |rules|, region)
  }

  method VertexMasks(rules: seq<AirwayRule>, regions: seq<string>) returns (masks: seq<Mask>)
    requires |rules| <= MAX_RULES
    ensures |masks| == |regions| && forall v :: 0 <= v < |regions| ==> RegionBits(masks[v], rules, |rules|, regions[v])
  {
    hide RegionBits;
    masks := [];
    var memo: map<string, Mask> := map[];
    for v := 0 to |regions|
      invariant |masks| == v && MemoOk(memo, rules)
      invariant forall u :: 0 <= u < v ==> RegionBits(masks[u], rules, |rules|, regions[u])
    {
      if regions[v] !in memo {
        var mask := RegionMask(rules, regions[v]);
        memo := memo[regions[v] := mask];
      }
      masks := masks + [memo[regions[v]]];
    }
  }

  method AirwayMasks(rules: seq<AirwayRule>, names: seq<string>) returns (masks: seq<Mask>)
    requires |rules| <= MAX_RULES
    ensures |masks| == |names| && (names != [] ==> masks[0] == 0)
    ensures forall id :: 0 < id < |names| ==> AirwayBits(masks[id], rules, names[id])
  {
    hide AirwayBits;
    masks := [];
    for id := 0 to |names|
      invariant |masks| == id && (id > 0 ==> masks[0] == 0)
      invariant forall j :: 0 < j < id ==> AirwayBits(masks[j], rules, names[j])
    {
      var mask := 0;
      if id > 0 {
        mask := AirwayMask(rules, names[id]);
      }
      masks := masks + [mask];
    }
  }

  /** Resolves the rules into mask tables; more than 32 rules are refused. */
  method ResolveAirwayRules(rules: seq<AirwayRule>, regions: seq<string>, names: seq<string>) returns (t: Option<MaskTables>)
    ensures t.None? <==> |rules| > MAX_RULES
    ensures t.Some? ==> Resolved(t.value, rules, regions, names)
  {
    hide RegionBits, AirwayBits, Has, One, Or;
    if |rules| > MAX_RULES {
      return None;
    }
    var blockBits: Mask := 0;
    var fractions: seq<real> := [];
    NoBlockBits(rules);
    for i := 0 to |rules|
      invariant BlockBits(blockBits, rules, i)
      invariant |fractions| == i && forall j :: 0 <= j < i ==> fractions[j] == Share(rules[j])
    {
      if rules[i].action == BlockLeg {
        SetBit(blockBits, i);
        blockBits := Or(blockBits, One(i));
        fractions := fractions + [0.0];
      } else {
        var fraction := rules[i].fraction;
        fractions := fractions + [if fraction < 0.0 then 0.0 else fraction];
      }
    }
    var vertexMask := VertexMasks(rules, regions);
    var airwayMask := AirwayMasks(rules, names);
    t := Some(MaskTables(vertexMask, airwayMask, blockBits, fractions));
  }

  // ---- Evaluation -----------------------------------------------------------------------------

  ghost function EdgeAt(regions: seq<string>, names: seq<string>, from: nat, to: nat, airwayId: nat, distance: real): RuledEdge
    requires from < |regions| && to < |regions| && airwayId < |names|
  {
    RuledEdge(regions[from], regions[to], if airwayId == 0 then None else Some(names[airwayId]), distance)
  }

  /** The mask of an edge has the bits of the rules that apply to it. */
  ghost predicate AppliesBits(m: Mask, rules: seq<AirwayRule>, e: RuledEdge) {
    forall i: nat :: Has(m, i) <==> i < |rules| && Applies(rules[i], e)
  }

  lemma RegionBit(m: Mask, rules: seq<AirwayRule>, region: string, i: nat)
    requires RegionBits(m, rules, |rules|, region)
    ensures Has(m, i) <==> i < |rules| && MatchesAnyPrefix(region, rules[i].regions)
  {
    hide Has, MatchesAnyPrefix;
  }

  lemma EdgeMaskBits(t: MaskTables, rules: seq<AirwayRule>, regions: seq<string>, names: seq<string>,
                     from: nat, to: nat, airwayId: nat, distance: real)
    requires Resolved(t, rules, regions, names) && from < |regions| && to < |regions| && airwayId < |names|
    ensures AppliesBits(And(Or(t.vertexMask[from], t.vertexMask[to]), t.airwayMask[airwayId]), rules,
                        EdgeAt(regions, names, from, to, airwayId, distance))
  {
    hide Has, NamesAirway, MatchesAnyPrefix, Or, And, RegionBits;
    var ends := Or(t.vertexMask[from], t.vertexMask[to]);
    forall i: nat
      ensures Has(And(ends, t.airwayMask[airwayId]), i) <==>
                i < |rules| && Applies(rules[i], EdgeAt(regions, names, from, to, airwayId, distance))
    {
      HasAnd(ends, t.airwayMask[airwayId], i);
      HasOr(t.vertexMask[from], t.vertexMask[to], i);
      NothingInZero(i);
      RegionBit(t.vertexMask[from], rules, regions[from], i);
      RegionBit(t.vertexMask[to], rules, regions[to], i);
    }
  }

  lemma {:induction false} BitsSumToShare(m: Mask, rules: seq<AirwayRule>, fractions: seq<real>, e: RuledEdge, n: nat)
    requires AppliesBits(m, rules, e) && n <= |rules| == |fractions|
    requires forall i :: 0 <= i < |rules| ==> fractions[i] == Share(rules[i])
    ensures SumOver(m, fractions[..n]) == TotalShare(rules[..n], e)
  {
    hide Has, Applies, Share;
    if n > 0 {
      BitsSumToShare(m, rules, fractions, e, n - 1);
      assert fractions[..n][..n - 1] == fractions[..n - 1];
      assert rules[..n][..n - 1] == rules[..n - 1];
    }
  }

  /** Two table reads and a few bit operations give the verdict of the plain rules. */
  method EvaluateRules(t: MaskTables, ghost rules: seq<AirwayRule>, ghost regions: seq<string>, ghost names: seq<string>,
                       from: nat, to: nat, airwayId: nat, distance: real)
    returns (v: EdgeVerdict)
    requires Resolved(t, rules, regions, names) && from < |regions| && to < |regions| && airwayId < |names|
    ensures v == Verdict(rules, EdgeAt(regions, names, from, to, airwayId, distance))
  {
    hide Has, Applies, Share, RegionBits, AirwayBits, SumOver, EdgeAt, Or, And;
    ghost var e := EdgeAt(regions, names, from, to, airwayId, distance);
    EdgeFacts(regions, names, from, to, airwayId, distance);
    EdgeMaskBits(t, rules, regions, names, from, to, airwayId, distance);
    var m := And(Or(t.vertexMask[from], t.vertexMask[to]), t.airwayMask[airwayId]);
    BitsSumToShare(m, rules, t.fractions, e, |rules|);
    assert t.fractions[..|rules|] == t.fractions && rules[..|rules|] == rules;
    BlockedByBits(m, t.blockBits, rules, e);
    if m == 0 {
      NothingBlocks(rules, e);
      SumOfNothing(t.fractions);
      return EdgeVerdict(true, 0.0);
    }
    if And(m, t.blockBits) != 0 {
      return EdgeVerdict(false, 0.0);
    }
    var frac := SumBits(m, t.fractions);
    v := EdgeVerdict(true, distance * frac);
  }

  lemma EdgeFacts(regions: seq<string>, names: seq<string>, from: nat, to: nat, airwayId: nat, distance: real)
    requires from < |regions| && to < |regions| && airwayId < |names|
    ensures EdgeAt(regions, names, from, to, airwayId, distance).distance == distance
  {
  }

  lemma NothingBlocks(rules: seq<AirwayRule>, e: RuledEdge)
    requires AppliesBits(0, rules, e)
    ensures !Blocked(rules, e)
  {
    hide Has, Applies;
    forall i: nat ensures !Has(0, i) { NothingInZero(i); }
  }

  lemma BlockedByBits(m: Mask, blockBits: Mask, rules: seq<AirwayRule>, e: RuledEdge)
    requires AppliesBits(m, rules, e) && BlockBits(blockBits, rules, |rules|)
    ensures And(m, blockBits) != 0 <==> Blocked(rules, e)
  {
    hide Applies, Or, And;
    var both := And(m, blockBits);
    forall i: nat
      ensures Has(both, i) <==> i < |rules| && Applies(rules[i], e) && rules[i].action.BlockLeg?
    {
      HasAnd(m, blockBits, i);
    }
    hide Has;
    if both != 0 {
      var c := HasSome(both);
    } else {
      forall i: nat ensures !Has(0, i) { NothingInZero(i); }
    }
  }
}

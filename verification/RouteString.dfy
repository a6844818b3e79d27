/** Folding a leg list into a filed route string, one airway name per stretch of legs that share it. */
module RouteStrings {
  import opened DesignatorLists

  datatype RouteLeg = RouteLeg(start: string, to: string, via: string, distance: real, concurrent: seq<string>)

  type Legs = seq<RouteLeg>

  /** A leg that never joins an airway group. */
  predicate Direct(leg: RouteLeg) {
    leg.via == DCT || Designators(leg.via) == []
  }

  function Kept(a: seq<string>, b: seq<string>): (r: seq<string>)
    ensures forall d :: d in r <==> d in a && d in b
  {
    if a == [] then [] else Kept(a[..|a| - 1], b) + if a[|a| - 1] in b then [a[|a| - 1]] else []
  }

  /** The names of a that b lists too, in a's order. */
  method Intersect(a: seq<string>, b: seq<string>) returns (out: seq<string>)
    ensures out == Kept(a, b)
  {
    out := [];
    for i := 0 to |a|
      invariant out == Kept(a[..i], b)
    {
      assert a[..i + 1][..i] == a[..i];
      if a[i] in b {
        out := out + [a[i]];
      }
    }
    assert a[..|a|] == a;
  }

  // ---- Groups ---------------------------------------------------------------------------------

  ghost predicate SharedBy(legs: Legs, a: nat, b: nat, d: string) {
    forall k :: a <= k < b && k < |legs| ==> d in Designators(legs[k].via)
  }

  /** The running intersection of legs i to j. */
  ghost function Common(legs: Legs, i: nat, j: nat): seq<string>
    requires i <= j < |legs|
  {
    if j == i then Designators(legs[i].via) else Kept(Common(legs, i, j - 1), Designators(legs[j].via))
  }

  lemma {:induction false} CommonIsShared(legs: Legs, i: nat, j: nat, d: string)
    requires i <= j < |legs|
    ensures d in Common(legs, i, j) <==> SharedBy(legs, i, j + 1, d)
  {
    hide Designators;
    if i < j {
      CommonIsShared(legs, i, j - 1, d);
    }
  }

  /** Legs a to b - 1 may be filed as one segment: a single leg, or airway legs all listing one name. */
  ghost predicate Foldable(legs: Legs, a: nat, b: nat) {
    && a < b <= |legs|
    && (b == a + 1 || ((exists d :: SharedBy(legs, a, b, d)) && forall k :: a <= k < b ==> legs[k].via != DCT))
  }

  /** The last leg of the group that starts at i and has grown to j. */
  ghost function Reach(legs: Legs, i: nat, j: nat): (e: nat)
    requires i <= j < |legs|
    ensures j <= e < |legs|
    ensures Common(legs, i, j) != [] ==> Common(legs, i, e) != []
    decreases |legs| - j
  {
    if j + 1 < |legs| && legs[j + 1].via != DCT && Common(legs, i, j + 1) != [] then Reach(legs, i, j + 1) else j
  }

  /** A filed segment: the legs it covers and the name it is filed under. */
  datatype Block = Block(first: nat, last: nat, name: string)

  ghost function BlockAt(legs: Legs, i: nat): (b: Block)
    requires i < |legs|
    ensures b.first == i <= b.last < |legs|
    ensures Direct(legs[i]) ==> b == Block(i, i, DCT)
  {
    if Direct(legs[i]) then Block(i, i, DCT)
    else Block(i, Reach(legs, i, i), Common(legs, i, Reach(legs, i, i))[0])
  }

  ghost function Blocks(legs: Legs, i: nat): seq<Block>
    decreases |legs| - i
  {
    if i >= |legs| then [] else [BlockAt(legs, i)] + Blocks(legs, BlockAt(legs, i).last + 1)
  }

  /** A group's name is a designator of each of its legs, none of which is a plain DCT leg. */
  lemma BlockIsShared(legs: Legs, i: nat)
    requires i < |legs| && !Direct(legs[i])
    ensures var b := BlockAt(legs, i);
            && SharedBy(legs, i, b.last + 1, b.name) && Foldable(legs, i, b.last + 1)
            && b.name in Common(legs, i, b.last)
            && forall k :: i <= k <= b.last ==> !Direct(legs[k])
  {
    hide Designators;
    var b := BlockAt(legs, i);
    CommonIsShared(legs, i, b.last, b.name);
    ReachAvoidsDct(legs, i, i);
    forall k | i <= k <= b.last
      ensures !Direct(legs[k])
    {
      assert b.name in Designators(legs[k].via);
    }
  }

  lemma {:induction false} ReachAvoidsDct(legs: Legs, i: nat, j: nat)
    requires i <= j < |legs| && forall k :: i <= k <= j ==> legs[k].via != DCT
    ensures forall k :: i <= k <= Reach(legs, i, j) ==> legs[k].via != DCT
    decreases |legs| - j
  {
    if j + 1 < |legs| && legs[j + 1].via != DCT && Common(legs, i, j + 1) != [] {
      ReachAvoidsDct(legs, i, j + 1);
    }
  }

  // ---- Fewest segments ------------------------------------------------------------------------

  lemma {:induction false} SharedReaches(legs: Legs, i: nat, j: nat, b: nat, d: string)
    requires i <= j < b <= |legs| && SharedBy(legs, i, b, d) && forall k :: i <= k < b ==> legs[k].via != DCT
    ensures b <= Reach(legs, i, j) + 1
    decreases b - j
  {
    hide Designators, Common;
    if j + 1 < b {
      CommonIsShared(legs, i, j + 1, d);
      SharedReaches(legs, i, j + 1, b, d);
    }
  }

  /** A group grows as far as any segment from its first leg could. */
  lemma ReachIsFarthest(legs: Legs, i: nat, b: nat)
    requires Foldable(legs, i, b)
    ensures b <= Reach(legs, i, i) + 1
  {
    hide SharedBy, Reach;
    if b != i + 1 {
      var d :| SharedBy(legs, i, b, d);
      SharedReaches(legs, i, i, b, d);
    }
  }

  /** Any part of a segment can be filed as one segment. */
  lemma TailFoldable(legs: Legs, a: nat, i: nat, b: nat)
    requires Foldable(legs, a, b) && a <= i < b
    ensures Foldable(legs, i, b)
  {
    if b > a + 1 {
      var d :| SharedBy(legs, a, b, d);
      assert SharedBy(legs, i, b, d);
    }
  }

  /** Cut points of the legs from a on into segments that can be filed. */
  ghost predicate Cut(legs: Legs, cuts: seq<nat>, a: nat) {
    && cuts != [] && cuts[0] == a && cuts[|cuts| - 1] == |legs|
    && forall m :: 0 <= m < |cuts| - 1 ==> Foldable(legs, cuts[m], cuts[m + 1])
  }

  /** Greedy grouping never needs more segments than another way of cutting, even with a head start for the other. */
  lemma {:induction false} GreedyIsFewest(legs: Legs, cuts: seq<nat>, a: nat, i: nat)
    requires Cut(legs, cuts, a) && a <= i
    ensures |Blocks(legs, i)| <= |cuts| - 1
    decreases |cuts|, |legs| - i
  {
    hide Foldable, Direct;
    if i < |legs| {
      assert |cuts| > 1;
      assert Foldable(legs, cuts[0], cuts[1]);
      FoldableBounds(legs, cuts[0], cuts[1]);
      assert Cut(legs, cuts[1..], cuts[1]) by { CutTail(legs, cuts, a); }
      if i < cuts[1] {
        TailFoldable(legs, a, i, cuts[1]);
        BlockReaches(legs, i, cuts[1]);
        GreedyIsFewest(legs, cuts[1..], cuts[1], BlockAt(legs, i).last + 1);
      } else {
        GreedyIsFewest(legs, cuts[1..], cuts[1], i);
      }
    }
  }

  lemma FoldableBounds(legs: Legs, a: nat, b: nat)
    requires Foldable(legs, a, b)
    ensures a < b <= |legs|
  {
  }

  lemma CutTail(legs: Legs, cuts: seq<nat>, a: nat)
    requires Cut(legs, cuts, a) && |cuts| > 1
    ensures Cut(legs, cuts[1..], cuts[1])
  {
    hide Foldable;
    var rest := cuts[1..];
    forall m | 0 <= m < |rest| - 1
      ensures Foldable(legs, rest[m], rest[m + 1])
    {
      assert Foldable(legs, cuts[m + 1], cuts[m + 2]);
    }
  }

  lemma BlockReaches(legs: Legs, i: nat, b: nat)
    requires Foldable(legs, i, b)
    ensures b <= BlockAt(legs, i).last + 1
  {
    if Direct(legs[i]) {
      DirectAlone(legs, i, b);
    } else {
      ReachIsFarthest(legs, i, b);
    }
  }

  lemma DirectAlone(legs: Legs, i: nat, b: nat)
    requires Foldable(legs, i, b) && Direct(legs[i])
    ensures b == i + 1
  {
    assert forall d :: SharedBy(legs, i, b, d) ==> d in Designators(legs[i].via);
  }

  ghost function Starts(legs: Legs, i: nat): (cuts: seq<nat>)
    requires i <= |legs|
    ensures |cuts| == |Blocks(legs, i)| + 1 && cuts[0] == i
    decreases |legs| - i
  {
    if i == |legs| then [i] else [i] + Starts(legs, BlockAt(legs, i).last + 1)
  }

  /** The greedy groups are themselves such a cut, so their number is the least. */
  lemma {:induction false} GreedyIsACut(legs: Legs, i: nat)
    requires i <= |legs|
    ensures Cut(legs, Starts(legs, i), i)
    decreases |legs| - i
  {
    hide Foldable, BlockAt;
    if i < |legs| {
      var next := BlockAt(legs, i).last + 1;
      GreedyIsACut(legs, next);
      BlockFolds(legs, i);
      CutPrepend(legs, i, next, Starts(legs, next));
    }
  }

  lemma CutPrepend(legs: Legs, i: nat, next: nat, rest: seq<nat>)
    requires Cut(legs, rest, next) && Foldable(legs, i, next)
    ensures Cut(legs, [i] + rest, i)
  {
    hide Foldable;
    var cuts := [i] + rest;
    forall m | 0 <= m < |cuts| - 1
      ensures Foldable(legs, cuts[m], cuts[m + 1])
    {
      if m > 0 {
        assert Foldable(legs, rest[m - 1], rest[m]);
      }
    }
  }

  lemma BlockFolds(legs: Legs, i: nat)
    requires i < |legs|
    ensures Foldable(legs, i, BlockAt(legs, i).last + 1)
  {
    if !Direct(legs[i]) {
      BlockIsShared(legs, i);
    }
  }

  // ---- The rewritten legs and the string -------------------------------------------------------

  function Named(leg: RouteLeg, name: string): RouteLeg {
    leg.(via := name, concurrent := if |Designators(leg.via)| > 1 then Designators(leg.via) else [])
  }

  /** The leg at k once its block is filed. */
  ghost function Refiled(legs: Legs, b: Block, k: nat): RouteLeg
    requires b.first <= k <= b.last < |legs|
  {
    if Direct(legs[b.first]) then legs[k].(concurrent := []) else Named(legs[k], b.name)
  }

  ghost function Rewritten(legs: Legs, i: nat): (out: Legs)
    ensures |out| == if i < |legs| then |legs| - i else 0
    decreases |legs| - i
  {
    if i >= |legs| then []
    else
      var b := BlockAt(legs, i);
      seq(b.last + 1 - i, k requires 0 <= k < b.last + 1 - i => Refiled(legs, b, i + k)) + Rewritten(legs, b.last + 1)
  }

  ghost function Text(legs: Legs, i: nat): string
    decreases |legs| - i
  {
    if i >= |legs| then ""
    else
      var b := BlockAt(legs, i);
      " " + b.name + " " + legs[b.last].to + Text(legs, b.last + 1)
  }

  /** Filing changes only which of its own designators an airway leg goes by. */
  ghost predicate FiledUnderOwn(was: RouteLeg, now: RouteLeg) {
    if Direct(was) then now == was.(concurrent := [])
    else
      && now.via in Designators(was.via)
      && now == was.(via := now.via, concurrent := if |Designators(was.via)| > 1 then Designators(was.via) else [])
  }

  lemma {:induction false} ViaIsOwnDesignator(legs: Legs, i: nat, k: nat)
    requires i <= k < |legs|
    ensures FiledUnderOwn(legs[k], Rewritten(legs, i)[k - i])
    decreases |legs| - i
  {
    hide FiledUnderOwn, BlockAt, Refiled;
    if k > BlockAt(legs, i).last {
      ViaIsOwnDesignator(legs, BlockAt(legs, i).last + 1, k);
    } else {
      RefiledIsOwn(legs, i, k);
    }
  }

  lemma RefiledIsOwn(legs: Legs, i: nat, k: nat)
    requires i < |legs| && i <= k <= BlockAt(legs, i).last
    ensures FiledUnderOwn(legs[k], Refiled(legs, BlockAt(legs, i), k))
  {
    hide Designators, Common, Reach;
    var b := BlockAt(legs, i);
    if !Direct(legs[i]) {
      BlockIsShared(legs, i);
      assert b.name in Designators(legs[k].via);
    }
  }

  // ---- Refolding ------------------------------------------------------------------------------

  /** out's legs from i on are the rewritten legs. */
  ghost predicate Refold(legs: Legs, out: Legs, i: nat) {
    |out| == |legs| && i <= |legs| && out[i..] == Rewritten(legs, i)
  }

  /** A stretch of two or more legs filed under the literal name DCT. */
  ghost predicate DctGroup(b: Block) {
    b.last > b.first && b.name == DCT
  }

  ghost predicate HasDctGroup(legs: Legs, i: nat) {
    exists b :: b in Blocks(legs, i) && DctGroup(b)
  }

  lemma RefoldStep(legs: Legs, out: Legs, i: nat)
    requires Refold(legs, out, i) && i < |legs|
    ensures var b := BlockAt(legs, i);
            && Refold(legs, out, b.last + 1) && |out| == |legs|
            && forall k :: i <= k <= b.last ==> out[k] == Refiled(legs, b, k)
  {
    hide BlockAt, Refiled;
    var b := BlockAt(legs, i);
    var r := Rewritten(legs, i);
    assert forall k :: i <= k < |out| ==> out[k] == out[i..][k - i];
    assert out[b.last + 1..] == r[b.last + 1 - i..];
  }

  /** The leg after a group cannot take the group's name. */
  lemma NextDiffers(legs: Legs, out: Legs, i: nat)
    requires Refold(legs, out, i) && i < |legs| && !Direct(legs[i])
    requires var b := BlockAt(legs, i); b.last + 1 < |legs|
    ensures var b := BlockAt(legs, i);
            out[b.last + 1].via == DCT || Kept([b.name], Designators(out[b.last + 1].via)) == []
  {
    hide Designators, Refold, BlockAt, Kept, Refiled, Common;
    var b := BlockAt(legs, i);
    var n := b.last + 1;
    RefoldStep(legs, out, i);
    RefoldStep(legs, out, n);
    NextNotShared(legs, i);
    RefiledIsOwn(legs, n, n);
    if Direct(legs[n]) {
      DirectStays(legs[n], out[n], b.name);
    } else {
      assert out[n].via in Designators(legs[n].via);
      assert IsName(out[n].via);
      NameAlone(out[n].via);
      KeptNone([b.name], Designators(out[n].via));
    }
  }

  lemma {:induction false} KeptNone(a: seq<string>, b: seq<string>)
    requires forall d :: d in a ==> d !in b
    ensures Kept(a, b) == []
  {
    if a != [] {
      KeptNone(a[..|a| - 1], b);
    }
  }

  lemma DirectStays(was: RouteLeg, now: RouteLeg, name: string)
    requires Direct(was) && FiledUnderOwn(was, now)
    ensures now.via == DCT || Kept([name], Designators(now.via)) == []
  {
  }

  /** The leg after a group is a DCT leg or does not list the group's name. */
  lemma NextNotShared(legs: Legs, i: nat)
    requires i < |legs| && !Direct(legs[i]) && BlockAt(legs, i).last + 1 < |legs|
    ensures var b := BlockAt(legs, i);
            legs[b.last + 1].via == DCT || b.name !in Designators(legs[b.last + 1].via)
  {
    hide Designators, Kept, Common;
    BlockIsShared(legs, i);
    ReachStops(legs, i, i);
  }

  lemma RefiledVia(legs: Legs, i: nat, k: nat)
    requires i < |legs| && !Direct(legs[i]) && i <= k <= BlockAt(legs, i).last
    ensures Refiled(legs, BlockAt(legs, i), k).via == BlockAt(legs, i).name
    ensures Refiled(legs, BlockAt(legs, i), k).to == legs[k].to
  {
  }

  lemma {:induction false} ReachStops(legs: Legs, i: nat, j: nat)
    requires i <= j < |legs|
    ensures var e := Reach(legs, i, j);
            e + 1 < |legs| ==>
              legs[e + 1].via == DCT || Kept(Common(legs, i, e), Designators(legs[e + 1].via)) == []
    decreases |legs| - j
  {
    hide Designators, Kept;
    if j + 1 < |legs| && legs[j + 1].via != DCT && Common(legs, i, j + 1) != [] {
      ReachStops(legs, i, j + 1);
    }
  }

  /** In the refiled legs a group that is not called DCT folds into the same block. */
  lemma SameBlock(legs: Legs, out: Legs, i: nat)
    requires Refold(legs, out, i) && i < |legs| && !DctGroup(BlockAt(legs, i))
    ensures BlockAt(out, i) == BlockAt(legs, i)
  {
    hide Designators, Refold, Common;
    var b := BlockAt(legs, i);
    RefoldStep(legs, out, i);
    if !Direct(legs[i]) {
      BlockIsShared(legs, i);
      assert IsName(b.name) by { assert b.name in Designators(legs[i].via); }
      NameAlone(b.name);
      forall k | i <= k <= b.last
        ensures out[k].via == b.name
      {
        RefiledVia(legs, i, k);
      }
      if b.name != DCT {
        if b.last + 1 < |legs| {
          NextDiffers(legs, out, i);
        }
        OneNameReach(out, i, i, b.last, b.name);
        OneNameCommon(out, i, b.last, b.name);
      }
    }
  }

  lemma KeptSelf(name: string)
    ensures Kept([name], [name]) == [name]
  {
    assert [name][..0] == [];
  }

  lemma {:induction false} OneNameCommon(out: Legs, i: nat, j: nat, name: string)
    requires i <= j < |out| && forall k :: i <= k <= j ==> Designators(out[k].via) == [name]
    ensures Common(out, i, j) == [name]
  {
    hide Designators;
    if i < j {
      OneNameCommon(out, i, j - 1, name);
      KeptSelf(name);
    }
  }

  lemma {:induction false} OneNameReach(out: Legs, i: nat, j: nat, last: nat, name: string)
    requires i <= j <= last < |out|
    requires forall k :: i <= k <= last ==> out[k].via != DCT && Designators(out[k].via) == [name]
    requires last + 1 < |out| ==> out[last + 1].via == DCT || Kept([name], Designators(out[last + 1].via)) == []
    ensures Reach(out, i, j) == last
    decreases last - j
  {
    hide Designators, Kept;
    if j < last {
      OneNameCommon(out, i, j + 1, name);
      OneNameReach(out, i, j + 1, last, name);
    } else {
      OneNameCommon(out, i, last, name);
    }
  }

  /** A group called DCT falls apart into its legs when refolded. */
  lemma {:induction false} DctGroupSplits(legs: Legs, out: Legs, i: nat, k: nat)
    requires Refold(legs, out, i) && i < |legs| && DctGroup(BlockAt(legs, i)) && i <= k <= BlockAt(legs, i).last
    ensures |Text(out, k)| >= |Text(out, BlockAt(legs, i).last + 1)| + |" " + DCT + " " + legs[BlockAt(legs, i).last].to|
    ensures k < BlockAt(legs, i).last ==>
              |Text(out, k)| > |Text(out, BlockAt(legs, i).last + 1)| + |" " + DCT + " " + legs[BlockAt(legs, i).last].to|
    decreases |legs| - k
  {
    hide *;
    var b := BlockAt(legs, i);
    DctGroupLeg(legs, out, i, k);
    TextHead(out, k);
    if k < b.last {
      DctGroupSplits(legs, out, i, k + 1);
    }
  }

  lemma DctGroupLeg(legs: Legs, out: Legs, i: nat, k: nat)
    requires Refold(legs, out, i) && i < |legs| && DctGroup(BlockAt(legs, i)) && i <= k <= BlockAt(legs, i).last
    ensures |out| == |legs| && BlockAt(out, k) == Block(k, k, DCT) && out[k].to == legs[k].to
  {
    hide Refold, Designators, Common, Reach;
    RefoldStep(legs, out, i);
    assert !Direct(legs[i]);
    RefiledVia(legs, i, k);
    DctBlock(out, k);
  }

  lemma DctBlock(out: Legs, k: nat)
    requires k < |out| && out[k].via == DCT
    ensures BlockAt(out, k) == Block(k, k, DCT)
  {
  }

  lemma {:induction false} RefoldText(legs: Legs, out: Legs, i: nat)
    requires Refold(legs, out, i)
    ensures |Text(out, i)| >= |Text(legs, i)|
    ensures Text(out, i) == Text(legs, i) <==> !HasDctGroup(legs, i)
    decreases |legs| - i
  {
    hide *;
    if i < |legs| {
      var b := BlockAt(legs, i);
      RefoldStep(legs, out, i);
      RefoldText(legs, out, b.last + 1);
      BlocksHead(legs, i);
      TextHead(legs, i);
      if DctGroup(b) {
        GroupIsLonger(b);
        DctGroupSplits(legs, out, i, i);
      } else {
        SameBlock(legs, out, i);
        SameTo(legs, out, i);
        TextHead(out, i);
        SameHead(" " + b.name + " " + legs[b.last].to, Text(legs, b.last + 1), Text(out, b.last + 1));
      }
    } else {
      NothingLeft(legs, out, i);
    }
  }

  lemma GroupIsLonger(b: Block)
    requires DctGroup(b)
    ensures b.first < b.last && b.name == DCT
  {
  }

  lemma NothingLeft(legs: Legs, out: Legs, i: nat)
    requires Refold(legs, out, i) && i >= |legs|
    ensures Text(legs, i) == Text(out, i) == "" && !HasDctGroup(legs, i)
  {
  }

  lemma TextHead(legs: Legs, i: nat)
    requires i < |legs|
    ensures var b := BlockAt(legs, i); Text(legs, i) == " " + b.name + " " + legs[b.last].to + Text(legs, b.last + 1)
  {
  }

  lemma SameTo(legs: Legs, out: Legs, i: nat)
    requires Refold(legs, out, i) && i < |legs|
    ensures out[BlockAt(legs, i).last].to == legs[BlockAt(legs, i).last].to
  {
    RefoldStep(legs, out, i);
  }

  lemma SameHead(head: string, a: string, b: string)
    ensures head + a == head + b <==> a == b
  {
    assert (head + a)[|head|..] == a && (head + b)[|head|..] == b;
  }

  lemma BlocksHead(legs: Legs, i: nat)
    requires i < |legs|
    ensures HasDctGroup(legs, i) <==> DctGroup(BlockAt(legs, i)) || HasDctGroup(legs, BlockAt(legs, i).last + 1)
  {
    hide BlockAt, DctGroup;
    var rest := Blocks(legs, BlockAt(legs, i).last + 1);
    assert Blocks(legs, i) == [BlockAt(legs, i)] + rest;
    assert forall b :: b in Blocks(legs, i) <==> b == BlockAt(legs, i) || b in rest;
  }

  /** Folding the filed legs again gives the same string exactly when no group of two or more legs was filed as DCT. */
  lemma RefoldIsStable(legs: Legs)
    ensures Text(Rewritten(legs, 0), 0) == Text(legs, 0) <==> !HasDctGroup(legs, 0)
  {
    hide Text, Rewritten, HasDctGroup;
    RefoldText(legs, Rewritten(legs, 0), 0);
  }

  /** So refolding is stable whenever DCT occurs only as a whole via. */
  lemma {:induction false} DctAloneIsStable(legs: Legs, i: nat)
    requires forall k :: 0 <= k < |legs| && legs[k].via != DCT ==> DCT !in Designators(legs[k].via)
    ensures !HasDctGroup(legs, i)
    decreases |legs| - i
  {
    if i < |legs| {
      DctAloneIsStable(legs, BlockAt(legs, i).last + 1);
      BlocksHead(legs, i);
      if !Direct(legs[i]) {
        BlockIsShared(legs, i);
        assert BlockAt(legs, i).name in Designators(legs[i].via);
      }
    }
  }

  const DCT_CONCURRENCIES: Legs := [
    RouteLeg("", "B", "DCT-A1", 0.0, []),
    RouteLeg("", "C", "DCT-A1", 0.0, [])]

  /** Two legs on a concurrency that lists DCT are filed as one direct leg, and refolding pulls them apart. */
  lemma DctInsideConcurrencyIsUnstable()
    ensures Text(Rewritten(DCT_CONCURRENCIES, 0), 0) != Text(DCT_CONCURRENCIES, 0)
  {
    hide Text, BlockAt, Rewritten, Designators, Direct, Blocks;
    var legs := DCT_CONCURRENCIES;
    PairSplits();
    PairFolds(legs);
    BlocksHead(legs, 0);
    RefoldText(legs, Rewritten(legs, 0), 0);
  }

  lemma PairSplits()
    ensures Designators("DCT-A1") == ["DCT", "A1"]
  {
    hide Designators;
    var both := ["DCT", "A1"];
    assert both[1..] == ["A1"];
    assert JoinNames(["A1"]) == "A1";
    assert JoinNames(both) == "DCT" + "-" + "A1";
    assert "DCT" + "-" + "A1" == "DCT-A1";
    SplitUndoesJoin(both);
  }

  lemma {:induction false} KeptAll(a: seq<string>, b: seq<string>)
    requires forall d :: d in a ==> d in b
    ensures Kept(a, b) == a
  {
    hide *;
    KeptStep(a, b);
    if a != [] {
      KeptAll(a[..|a| - 1], b);
      assert a == a[..|a| - 1] + [a[|a| - 1]];
    }
  }

  lemma KeptStep(a: seq<string>, b: seq<string>)
    ensures Kept(a, b) == if a == [] then [] else Kept(a[..|a| - 1], b) + if a[|a| - 1] in b then [a[|a| - 1]] else []
  {
  }

  lemma PairFolds(legs: Legs)
    requires |legs| == 2 && Designators(legs[0].via) == Designators(legs[1].via) == ["DCT", "A1"]
    requires legs[0].via != DCT && legs[1].via != DCT
    ensures BlockAt(legs, 0) == Block(0, 1, DCT) && !Direct(legs[0])
  {
    hide Designators, Kept;
    KeptAll(["DCT", "A1"], ["DCT", "A1"]);
    assert Common(legs, 0, 0) == ["DCT", "A1"];
    assert Common(legs, 0, 1) == ["DCT", "A1"];
    assert Reach(legs, 0, 1) == 1;
  }

  // ---- The fold -------------------------------------------------------------------------------

  /** The fold has filed legs 0 to i - 1 and left the others alone. */
  ghost predicate FiledUpTo(firstPoint: string, was: Legs, now: Legs, rs: string, i: nat) {
    && i <= |was| == |now|
    && rs + Text(was, i) == firstPoint + Text(was, 0)
    && now[..i] + Rewritten(was, i) == Rewritten(was, 0)
    && now[i..] == was[i..]
  }

  lemma FilesOneBlock(firstPoint: string, was: Legs, now: Legs, rs: string, i: nat, next: Legs)
    requires FiledUpTo(firstPoint, was, now, rs, i) && i < |was| && |next| == |was|
    requires var b := BlockAt(was, i);
             && next[..i] == now[..i] && next[b.last + 1..] == now[b.last + 1..]
             && forall k :: i <= k <= b.last ==> next[k] == Refiled(was, b, k)
    ensures var b := BlockAt(was, i);
            FiledUpTo(firstPoint, was, next, rs + " " + b.name + " " + was[b.last].to, b.last + 1)
  {
    hide *;
    var b := BlockAt(was, i);
    TextGrows(firstPoint, was, rs, i) by { FiledFacts(firstPoint, was, now, rs, i); }
    LegsGrow(was, now, i, next) by { FiledFacts(firstPoint, was, now, rs, i); }
    IsFiled(firstPoint, was, next, rs + " " + b.name + " " + was[b.last].to, b.last + 1);
  }

  lemma FiledFacts(firstPoint: string, was: Legs, now: Legs, rs: string, i: nat)
    requires FiledUpTo(firstPoint, was, now, rs, i)
    ensures i <= |was| == |now| && now[i..] == was[i..]
    ensures rs + Text(was, i) == firstPoint + Text(was, 0) && now[..i] + Rewritten(was, i) == Rewritten(was, 0)
  {
    hide Text, Rewritten;
  }

  lemma IsFiled(firstPoint: string, was: Legs, now: Legs, rs: string, i: nat)
    requires i <= |was| == |now| && now[i..] == was[i..]
    requires rs + Text(was, i) == firstPoint + Text(was, 0) && now[..i] + Rewritten(was, i) == Rewritten(was, 0)
    ensures FiledUpTo(firstPoint, was, now, rs, i)
  {
    hide Text, Rewritten;
  }

  lemma TextGrows(firstPoint: string, was: Legs, rs: string, i: nat)
    requires i < |was| && rs + Text(was, i) == firstPoint + Text(was, 0)
    ensures var b := BlockAt(was, i);
            rs + " " + b.name + " " + was[b.last].to + Text(was, b.last + 1) == firstPoint + Text(was, 0)
  {
    TextHead(was, i);
    hide *;
    var b := BlockAt(was, i);
    Regroup(rs, " " + b.name + " " + was[b.last].to, Text(was, b.last + 1));
    Regroup(rs, " " + b.name + " ", was[b.last].to);
    Regroup(rs, " " + b.name, " ");
    Regroup(rs, " ", b.name);
  }

  lemma Regroup<T>(a: seq<T>, b: seq<T>, c: seq<T>)
    ensures a + (b + c) == a + b + c
  {
  }

  lemma LegsGrow(was: Legs, now: Legs, i: nat, next: Legs)
    requires i < |was| == |now| == |next| && now[i..] == was[i..] && now[..i] + Rewritten(was, i) == Rewritten(was, 0)
    requires var b := BlockAt(was, i);
             && next[..i] == now[..i] && next[b.last + 1..] == now[b.last + 1..]
             && forall k :: i <= k <= b.last ==> next[k] == Refiled(was, b, k)
    ensures var b := BlockAt(was, i);
            next[..b.last + 1] + Rewritten(was, b.last + 1) == Rewritten(was, 0) && next[b.last + 1..] == was[b.last + 1..]
  {
    hide *;
    var n := BlockAt(was, i).last + 1;
    var block := RewrittenHead(was, i);
    assert next[..n] == next[..i] + block;
    Regroup(next[..i], block, Rewritten(was, n));
    assert next[n..] == now[i..][n - i..];
    assert was[n..] == was[i..][n - i..];
  }

  lemma RewrittenHead(was: Legs, i: nat) returns (block: Legs)
    requires i < |was|
    ensures var b := BlockAt(was, i);
            && |block| == b.last + 1 - i && Rewritten(was, i) == block + Rewritten(was, b.last + 1)
            && forall k :: 0 <= k < |block| ==> block[k] == Refiled(was, b, i + k)
  {
    hide BlockAt, Refiled, Designators, Direct;
    var b := BlockAt(was, i);
    block := seq(b.last + 1 - i, k requires 0 <= k < b.last + 1 - i => Refiled(was, b, i + k));
  }

  lemma ReachStep(legs: Legs, i: nat, j: nat)
    requires i <= j < |legs|
    ensures Reach(legs, i, j) ==
            if j + 1 < |legs| && legs[j + 1].via != DCT && Common(legs, i, j + 1) != [] then Reach(legs, i, j + 1) else j
    ensures j + 1 < |legs| ==> Common(legs, i, j + 1) == Kept(Common(legs, i, j), Designators(legs[j + 1].via))
  {
    hide Designators, Kept;
  }

  /** Grows the group that starts at i while its legs keep a name in common. */
  method GrowGroup(legs: array<RouteLeg>, split: seq<seq<string>>, i: nat) returns (j: nat, chosen: string)
    requires i < legs.Length == |split| && !Direct(legs[i])
    requires forall m :: i <= m < legs.Length ==> split[m] == Designators(legs[m].via)
    ensures BlockAt(legs[..], i) == Block(i, j, chosen)
  {
    hide Designators, Kept, Reach, Common;
    ghost var now := legs[..];
    var running := split[i];
    j := i;
    GroupStarts(now, i);
    while j + 1 < legs.Length && legs[j + 1].via != DCT
      invariant i <= j < legs.Length && running == Common(now, i, j) && running != []
      invariant Reach(now, i, i) == Reach(now, i, j)
    {
      ReachStep(now, i, j);
      var inter := Intersect(running, split[j + 1]);
      if inter == [] {
        break;
      }
      running := inter;
      j := j + 1;
    }
    ReachStep(now, i, j);
    chosen := running[0];
  }

  lemma GroupStarts(legs: Legs, i: nat)
    requires i < |legs|
    ensures Common(legs, i, i) == Designators(legs[i].via)
  {
  }

  /** Files legs i to j under one name, keeping a concurrency's full list beside it. */
  method FileGroup(legs: array<RouteLeg>, split: seq<seq<string>>, i: nat, j: nat, chosen: string)
    requires i <= j < legs.Length == |split|
    requires forall m :: i <= m < legs.Length ==> split[m] == Designators(legs[m].via)
    modifies legs
    ensures forall k :: i <= k <= j ==> legs[k] == Named(old(legs[k]), chosen)
    ensures legs[..i] == old(legs[..i]) && legs[j + 1..] == old(legs[j + 1..])
  {
    hide Designators;
    for k := i to j + 1
      invariant forall m :: i <= m < k ==> legs[m] == Named(old(legs[m]), chosen)
      invariant forall m :: 0 <= m < i || k <= m < legs.Length ==> legs[m] == old(legs[m])
    {
      legs[k] := legs[k].(via := chosen, concurrent := if |split[k]| > 1 then split[k] else []);
    }
  }

  /** Builds the filed route string, rewriting each leg to the name it is filed under. */
  method BuildRouteString(firstPoint: string, legs: array<RouteLeg>) returns (rs: string)
    modifies legs
    ensures legs[..] == Rewritten(old(legs[..]), 0)
    ensures rs == firstPoint + Text(old(legs[..]), 0)
  {
    hide *;
    ghost var was := legs[..];
    rs := firstPoint;
    var split: seq<seq<string>> := [];
    for k := 0 to legs.Length
      invariant legs[..] == was
      invariant |split| == k && forall m :: 0 <= m < k ==> split[m] == Designators(legs[m].via)
    {
      var names := SplitDesignators(legs[k].via);
      split := split + [names];
    }
    var i := 0;
    FoldStarts(firstPoint, was);
    while i < legs.Length
      invariant i <= legs.Length && FiledUpTo(firstPoint, was, legs[..], rs, i)
      invariant forall k :: i <= k < legs.Length ==> split[k] == Designators(legs[k].via)
    {
      ghost var now := legs[..];
      FiledFacts(firstPoint, was, now, rs, i);
      SameBlockAt(was, now, i);
      if legs[i].via == DCT || split[i] == [] {
        IsDirect(legs[i]);
        legs[i] := legs[i].(concurrent := []);
        DirectFiled(was, i, legs[i]);
        FilesOneBlock(firstPoint, was, now, rs, i, legs[..]);
        rs := rs + " " + DCT + " " + legs[i].to;
        i := i + 1;
      } else {
        IsDirect(legs[i]);
        var j, chosen := GrowGroup(legs, split, i);
        FileGroup(legs, split, i, j, chosen);
        GroupFiled(was, i, j, chosen, legs[..]);
        FilesOneBlock(firstPoint, was, now, rs, i, legs[..]);
        rs := rs + " " + chosen + " " + legs[j].to;
        i := j + 1;
        assert forall k :: i <= k < legs.Length ==> legs[k] == legs[i..][k - i] == now[i..][k - i] == now[k];
      }
    }
    EndOfLegs(firstPoint, was, legs[..], rs, i);
  }

  lemma FoldStarts(firstPoint: string, was: Legs)
    ensures FiledUpTo(firstPoint, was, was, firstPoint, 0)
  {
  }

  lemma IsDirect(leg: RouteLeg)
    ensures Direct(leg) <==> leg.via == DCT || Designators(leg.via) == []
  {
  }

  /** A block depends only on the legs from its start on. */
  lemma SameBlockAt(a: Legs, b: Legs, i: nat)
    requires i < |a| == |b| && a[i..] == b[i..]
    ensures BlockAt(a, i) == BlockAt(b, i) && forall k :: i <= k < |a| ==> a[k] == b[k]
  {
    forall k | i <= k < |a|
      ensures a[k] == b[k]
    {
      assert a[k] == a[i..][k - i] && b[k] == b[i..][k - i];
    }
    if !Direct(a[i]) {
      SameReach(a, b, i, i);
    }
  }

  lemma {:induction false} SameCommon(a: Legs, b: Legs, i: nat, j: nat)
    requires i <= j < |a| == |b| && forall k :: i <= k < |a| ==> a[k] == b[k]
    ensures Common(a, i, j) == Common(b, i, j)
  {
    hide Designators;
    if i < j {
      SameCommon(a, b, i, j - 1);
    }
  }

  lemma {:induction false} SameReach(a: Legs, b: Legs, i: nat, j: nat)
    requires i <= j < |a| == |b| && forall k :: i <= k < |a| ==> a[k] == b[k]
    ensures Reach(a, i, j) == Reach(b, i, j) && Common(a, i, Reach(a, i, j)) == Common(b, i, Reach(a, i, j))
    decreases |a| - j
  {
    hide Common;
    SameCommon(a, b, i, Reach(a, i, j));
    if j + 1 < |a| {
      SameCommon(a, b, i, j + 1);
      SameReach(a, b, i, j + 1);
    }
  }

  lemma DirectFiled(was: Legs, i: nat, now: RouteLeg)
    requires i < |was| && Direct(was[i]) && now == was[i].(concurrent := [])
    ensures BlockAt(was, i) == Block(i, i, DCT) && now == Refiled(was, BlockAt(was, i), i)
  {
  }

  lemma GroupFiled(was: Legs, i: nat, j: nat, chosen: string, now: Legs)
    requires i <= j < |was| == |now| && !Direct(was[i]) && BlockAt(was, i) == Block(i, j, chosen)
    requires forall k :: i <= k <= j ==> now[k] == Named(was[k], chosen)
    ensures forall k :: i <= k <= j ==> now[k] == Refiled(was, BlockAt(was, i), k)
    ensures now[j].to == was[j].to
  {
    hide BlockAt, Designators;
  }

  lemma EndOfLegs(firstPoint: string, was: Legs, now: Legs, rs: string, i: nat)
    requires FiledUpTo(firstPoint, was, now, rs, i) && i == |was|
    ensures now == Rewritten(was, 0) && rs == firstPoint + Text(was, 0)
  {
  }
}

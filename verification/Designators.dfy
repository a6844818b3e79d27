/** Airway designator fields: "A593-Y592" names two airways sharing one leg. */
module DesignatorLists {

  const DCT := "DCT"

  predicate IsDash(c: char) { c == '-' }

  ghost predicate NoDash(s: string, i: nat, j: nat) {
    forall k :: i <= k < j && k < |s| ==> !IsDash(s[k])
  }

  ghost predicate IsName(d: string) {
    d != "" && NoDash(d, 0, |d|)
  }

  /** Where the first hyphen is, or the length when there is none. */
  function DashAt(s: string): (at: nat)
    ensures at <= |s| && (at < |s| ==> IsDash(s[at])) && NoDash(s, 0, at)
  {
    if s == "" || IsDash(s[0]) then 0
    else
      assert forall k :: 0 < k < |s| ==> s[k] == s[1..][k - 1];
      1 + DashAt(s[1..])
  }

  lemma DashAfter(s: string, at: nat)
    requires at <= |s| && NoDash(s, 0, at) && (at < |s| ==> IsDash(s[at]))
    ensures DashAt(s) == at
  {
  }

  /** The names between hyphens, in order; empty ones are dropped. */
  function Designators(s: string): (names: seq<string>)
    ensures forall d :: d in names ==> IsName(d)
    decreases |s|
  {
    if s == "" then []
    else
      var at := DashAt(s);
      (if at > 0 then [s[..at]] else []) + if at < |s| then Designators(s[at + 1..]) else []
  }

  /** d is a maximal stretch of s without hyphens, starting at i. */
  ghost predicate Run(s: string, i: nat, d: string) {
    && IsName(d) && i + |d| <= |s| && (forall k :: 0 <= k < |d| ==> s[i + k] == d[k])
    && (i > 0 ==> IsDash(s[i - 1])) && (i + |d| < |s| ==> IsDash(s[i + |d|]))
  }

  ghost predicate HasRun(s: string, d: string) {
    exists i: nat :: Run(s, i, d)
  }

  /** A name is listed exactly when it is a maximal hyphen-free stretch of the field. */
  lemma {:induction false} ListedIffRun(s: string, d: string)
    ensures d in Designators(s) <==> HasRun(s, d)
    decreases |s|
  {
    hide Run;
    FirstRun(s, d);
    if DashAt(s) < |s| {
      ListedIffRun(s[DashAt(s) + 1..], d);
      LaterRuns(s, DashAt(s), d);
    } else {
      OnlyRun(s, d);
    }
  }

  lemma FirstRun(s: string, d: string)
    ensures var at := DashAt(s); Run(s, 0, d) <==> at > 0 && d == s[..at]
    ensures forall i: nat :: Run(s, i, d) && i <= DashAt(s) ==> i == 0
  {
    var at := DashAt(s);
    assert at > 0 ==> Run(s, 0, s[..at]);
    if Run(s, 0, d) {
      forall k | 0 <= k < |d|
        ensures !IsDash(s[k])
      {
        assert s[0 + k] == d[k];
      }
      assert |d| == at;
      assert d == s[..at];
    }
  }

  lemma OnlyRun(s: string, d: string)
    requires DashAt(s) == |s|
    ensures HasRun(s, d) <==> Run(s, 0, d)
  {
    FirstRun(s, d);
    assert forall i: nat :: Run(s, i, d) ==> i <= |s|;
  }

  lemma LaterRuns(s: string, at: nat, d: string)
    requires at == DashAt(s) < |s|
    ensures HasRun(s, d) <==> Run(s, 0, d) || HasRun(s[at + 1..], d)
  {
    FirstRun(s, d);
    hide Run, DashAt, NoDash, IsDash, IsName;
    if HasRun(s, d) {
      var i: nat :| Run(s, i, d);
      if i > at {
        ShiftRun(s, at, i - at - 1, d);
      }
    }
    if HasRun(s[at + 1..], d) {
      var i: nat :| Run(s[at + 1..], i, d);
      ShiftRun(s, at, i, d);
    }
  }

  lemma ShiftRun(s: string, at: nat, i: nat, d: string)
    requires at < |s| && IsDash(s[at])
    ensures Run(s, at + 1 + i, d) <==> Run(s[at + 1..], i, d)
  {
    hide IsDash, IsName;
    var rest := s[at + 1..];
    assert forall k :: 0 <= k < |rest| ==> rest[k] == s[at + 1 + k];
    assert forall k :: at < k < |s| ==> s[k] == rest[k - at - 1];
  }

  function JoinNames(names: seq<string>): string {
    if names == [] then "" else if |names| == 1 then names[0] else names[0] + "-" + JoinNames(names[1..])
  }

  /** Splitting undoes joining, so order and repetition survive. */
  lemma {:induction false} SplitUndoesJoin(names: seq<string>)
    requires forall d :: d in names ==> IsName(d)
    ensures Designators(JoinNames(names)) == names
  {
    if names != [] {
      hide *;
      SplitUndoesJoin(names[1..]);
      JoinSplitsFirst(names);
    } else {
      assert JoinNames(names) == "";
    }
  }

  lemma JoinSplitsFirst(names: seq<string>)
    requires names != [] && IsName(names[0]) && Designators(JoinNames(names[1..])) == names[1..]
    ensures Designators(JoinNames(names)) == names
  {
    var s, at := JoinNames(names), |names[0]|;
    assert s[..at] == names[0];
    assert forall k :: 0 <= k < at ==> s[k] == names[0][k];
    hide Designators;
    DashAfter(s, at);
    SplitFirst(s, at);
    if |names| > 1 {
      assert s[at + 1..] == JoinNames(names[1..]);
    }
    assert names == [names[0]] + names[1..];
  }

  lemma SplitFirst(s: string, at: nat)
    requires DashAt(s) == at > 0
    ensures Designators(s) == [s[..at]] + if at < |s| then Designators(s[at + 1..]) else []
  {
    hide DashAt;
  }

  /** A single name is its own list. */
  lemma NameAlone(d: string)
    requires IsName(d)
    ensures Designators(d) == [d]
  {
    SplitUndoesJoin([d]);
  }

  method FindDash(s: string, start: nat) returns (at: nat)
    requires start <= |s|
    ensures start <= at <= |s| && (at < |s| ==> IsDash(s[at])) && NoDash(s, start, at)
  {
    at := start;
    while at < |s| && !IsDash(s[at])
      invariant start <= at <= |s| && NoDash(s, start, at)
    {
      at := at + 1;
    }
  }

  lemma SplitStep(via: string, start: nat, dash: nat)
    requires start <= dash <= |via| && (dash < |via| ==> IsDash(via[dash])) && NoDash(via, start, dash)
    ensures Designators(via[start..]) ==
            (if dash > start then [via[start..dash]] else []) + if dash < |via| then Designators(via[dash + 1..]) else []
  {
    var rest := via[start..];
    assert forall k :: 0 <= k < |rest| ==> rest[k] == via[start + k];
    DashAfter(rest, dash - start);
    assert rest[..dash - start] == via[start..dash];
    if dash < |via| {
      assert rest[dash - start + 1..] == via[dash + 1..];
    }
  }

  /** Lists the names of a designator field. */
  method SplitDesignators(via: string) returns (out: seq<string>)
    ensures out == Designators(via)
  {
    hide Designators, NoDash;
    out := [];
    var start := 0;
    assert via[0..] == via;
    while start <= |via|
      invariant start <= |via| && out + Designators(via[start..]) == Designators(via)
    {
      var dash := FindDash(via, start);
      SplitStep(via, start, dash);
      assert via[start..] == via[start..|via|];
      if dash == |via| {
        if start < |via| {
          out := out + [via[start..]];
        }
        break;
      }
      if dash > start {
        out := out + [via[start..dash]];
      }
      start := dash + 1;
    }
  }
}

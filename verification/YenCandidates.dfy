/** The candidate set: ordered by (cost, vertices), without equivalent entries. */
module YenCandidates {
  import opened SearchModel
  import opened YenPartition

  /** Lexicographic order on vertex lists. */
  predicate LexLess(a: seq<int>, b: seq<int>) {
    if b == [] then false
    else if a == [] then true
    else if a[0] != b[0] then a[0] < b[0]
    else LexLess(a[1..], b[1..])
  }

  lemma {:induction false} LexTotal(a: seq<int>, b: seq<int>)
    ensures a == b || LexLess(a, b) || LexLess(b, a)
    ensures !(LexLess(a, b) && LexLess(b, a)) && !LexLess(a, a)
  {
    if a != [] {
      LexTotal(a[1..], a[1..]);
    }
    if a != [] && b != [] && a[0] == b[0] {
      LexTotal(a[1..], b[1..]);
      assert a == [a[0]] + a[1..] && b == [b[0]] + b[1..];
    }
  }

  lemma {:induction false} LexTransitive(a: seq<int>, b: seq<int>, c: seq<int>)
    requires LexLess(a, b) && LexLess(b, c)
    ensures LexLess(a, c)
  {
    if a != [] && a[0] == b[0] && b[0] == c[0] {
      LexTransitive(a[1..], b[1..], c[1..]);
    }
  }

  /** It is the dictionary order: the lists part at some position, the first ending there or having the smaller vertex. */
  lemma {:induction false} LexIsDictionary(a: seq<int>, b: seq<int>)
    ensures LexLess(a, b) <==>
              exists k: nat :: k <= |a| && k < |b| && a[..k] == b[..k] && (k == |a| || a[k] < b[k])
  {
    if LexLess(a, b) {
      var k := LexParts(a, b);
    }
    if k: nat :| k <= |a| && k < |b| && a[..k] == b[..k] && (k == |a| || a[k] < b[k]) {
      PartsLex(a, b, k);
    }
  }

  lemma {:induction false} LexParts(a: seq<int>, b: seq<int>) returns (k: nat)
    requires LexLess(a, b)
    ensures k <= |a| && k < |b| && a[..k] == b[..k] && (k == |a| || a[k] < b[k])
  {
    if a == [] || a[0] != b[0] {
      k := 0;
    } else {
      var j := LexParts(a[1..], b[1..]);
      k := j + 1;
      assert a[..k] == [a[0]] + a[1..][..j] && b[..k] == [b[0]] + b[1..][..j];
    }
  }

  lemma {:induction false} PartsLex(a: seq<int>, b: seq<int>, k: nat)
    requires k <= |a| && k < |b| && a[..k] == b[..k] && (k == |a| || a[k] < b[k])
    ensures LexLess(a, b)
    decreases k
  {
    if k > 0 {
      assert a[0] == a[..k][0] == b[..k][0] == b[0];
      assert a[1..][..k - 1] == a[..k][1..] && b[1..][..k - 1] == b[..k][1..];
      PartsLex(a[1..], b[1..], k - 1);
    }
  }

  /** The candidate order: cheaper first, then the smaller vertex list. */
  predicate Before(c: Candidate, d: Candidate) {
    if c.cost != d.cost then c.cost < d.cost else LexLess(c.vertices, d.vertices)
  }

  ghost predicate Sorted(cs: seq<Candidate>) {
    forall i, j :: 0 <= i < j < |cs| ==> Before(cs[i], cs[j])
  }

  lemma BeforeTransitive(a: Candidate, b: Candidate, c: Candidate)
    requires Before(a, b) && Before(b, c)
    ensures Before(a, c)
  {
    if a.cost == b.cost == c.cost {
      LexTransitive(a.vertices, b.vertices, c.vertices);
    }
  }

  ghost function Members(cs: seq<Candidate>): (s: set<Candidate>)
    ensures forall c :: c in s <==> c in cs
  {
    set c | c in cs
  }

  lemma SortedInsert(cs: seq<Candidate>, c: Candidate, k: nat)
    requires Sorted(cs) && k <= |cs|
    requires forall i :: 0 <= i < k ==> Before(cs[i], c)
    requires k < |cs| ==> Before(c, cs[k])
    ensures Sorted(cs[..k] + [c] + cs[k..])
    ensures Members(cs[..k] + [c] + cs[k..]) == Members(cs) + {c}
  {
    var out := cs[..k] + [c] + cs[k..];
    forall i, j | 0 <= i < j < |out|
      ensures Before(out[i], out[j])
    {
      if i == k && j > k + 1 {
        BeforeTransitive(c, cs[k], cs[j - 1]);
      }
      if i < k && j == k {
        assert out[i] == cs[i];
      }
    }
    forall x
      ensures x in out <==> x in cs || x == c
    {
      assert cs == cs[..k] + cs[k..];
    }
  }

  /** Set insertion: an entry with equal cost and vertices is already there, otherwise c takes its place in order. */
  method Insert(cs: seq<Candidate>, c: Candidate) returns (out: seq<Candidate>)
    requires Sorted(cs)
    ensures Sorted(out)
    ensures if exists d :: d in cs && d.cost == c.cost && d.vertices == c.vertices then out == cs
            else Members(out) == Members(cs) + {c}
  {
    var k := 0;
    while k < |cs| && Before(cs[k], c)
      invariant 0 <= k <= |cs|
      invariant forall i :: 0 <= i < k ==> Before(cs[i], c)
    {
      k := k + 1;
    }
    LexTotal(c.vertices, c.vertices);
    if k < |cs| {
      LexTotal(cs[k].vertices, c.vertices);
      if !Before(c, cs[k]) {
        assert cs[k] in cs;
        return cs;
      }
    }
    forall d | d in cs
      ensures !(d.cost == c.cost && d.vertices == c.vertices)
    {
      var i :| 0 <= i < |cs| && cs[i] == d;
      if i > k {
        assert Before(cs[k], cs[i]);
        BeforeTransitive(c, cs[k], cs[i]);
      }
    }
    SortedInsert(cs, c, k);
    out := cs[..k] + [c] + cs[k..];
  }

  /** The first entry is the least, and dropping it removes exactly it. */
  lemma FirstIsLeast(cs: seq<Candidate>)
    requires Sorted(cs) && cs != []
    ensures Sorted(cs[1..]) && Members(cs[1..]) == Members(cs) - {cs[0]}
    ensures forall c :: c in cs ==> cs[0].cost <= c.cost
  {
    forall c | c in cs[1..]
      ensures c != cs[0]
    {
      var i :| 0 <= i < |cs| - 1 && cs[1..][i] == c;
      assert Before(cs[0], cs[i + 1]);
      LexTotal(c.vertices, c.vertices);
    }
    assert cs == [cs[0]] + cs[1..];
  }

  // ---- InOrder ban lists -----------------------------------------------------------------------

  predicate VertexBefore(u: int, v: int) {
    u < v
  }

  predicate KeyBefore(a: EdgeKey, b: EdgeKey) {
    a.Before(b)
  }

  ghost predicate StrictOrder<T(!new)>(before: (T, T) -> bool) {
    && (forall a, b :: before(a, b) || before(b, a) <==> a != b)
    && (forall a, b, c :: before(a, b) && before(b, c) ==> before(a, c))
  }

  ghost predicate Ascending<T>(xs: seq<T>, before: (T, T) -> bool) {
    forall i, j :: 0 <= i < j < |xs| ==> before(xs[i], xs[j])
  }

  /** xs with x put in its place. */
  ghost function Inserted<T(!new)>(xs: seq<T>, x: T, before: (T, T) -> bool): (out: seq<T>)
    requires StrictOrder(before) && Ascending(xs, before)
    ensures Ascending(out, before) && forall y :: y in out <==> y in xs || y == x
  {
    if xs == [] then [x]
    else
      var front, last := xs[..|xs| - 1], xs[|xs| - 1];
      assert xs == front + [last];
      if x == last then xs
      else if before(last, x) then xs + [x]
      else
        var rest := Inserted(front, x, before);
        assert forall y :: y in rest ==> before(y, last);
        rest + [last]
  }

  /** The members of xs in order, each once. */
  ghost function InOrder<T(!new)>(xs: seq<T>, before: (T, T) -> bool): (out: seq<T>)
    requires StrictOrder(before)
    ensures Ascending(out, before) && forall x :: x in out <==> x in xs
  {
    if xs == [] then []
    else
      assert xs == xs[..|xs| - 1] + [xs[|xs| - 1]];
      Inserted(InOrder(xs[..|xs| - 1], before), xs[|xs| - 1], before)
  }

  /** Ascending lists with the same members are the same list. */
  lemma {:induction false} AscendingIsUnique<T(!new)>(xs: seq<T>, ys: seq<T>, before: (T, T) -> bool)
    requires StrictOrder(before) && Ascending(xs, before) && Ascending(ys, before)
    requires forall x :: x in xs <==> x in ys
    ensures xs == ys
  {
    NotEmptyEither(xs, ys);
    NotEmptyEither(ys, xs);
    if xs != [] {
      var front, front' := xs[..|xs| - 1], ys[..|ys| - 1];
      SameLast(xs, ys, before);
      FrontMembers(xs, before);
      FrontMembers(ys, before);
      forall x
        ensures x in front <==> x in front'
      {
        assert x in xs <==> x in ys;
      }
      AscendingIsUnique(front, front', before);
      assert xs == front + [xs[|xs| - 1]] && ys == front' + [ys[|ys| - 1]];
    }
  }

  lemma NotEmptyEither<T(!new)>(xs: seq<T>, ys: seq<T>)
    requires forall x :: x in xs ==> x in ys
    ensures xs != [] ==> ys != []
  {
    if xs != [] {
      assert xs[0] in ys;
    }
  }

  lemma FrontMembers<T(!new)>(xs: seq<T>, before: (T, T) -> bool)
    requires StrictOrder(before) && Ascending(xs, before) && xs != []
    ensures Ascending(xs[..|xs| - 1], before)
    ensures forall x :: x in xs[..|xs| - 1] <==> x in xs && x != xs[|xs| - 1]
  {
    assert xs == xs[..|xs| - 1] + [xs[|xs| - 1]];
  }

  lemma SameLast<T(!new)>(xs: seq<T>, ys: seq<T>, before: (T, T) -> bool)
    requires StrictOrder(before) && Ascending(xs, before) && Ascending(ys, before) && xs != [] && ys != []
    requires forall x :: x in xs <==> x in ys
    ensures xs[|xs| - 1] == ys[|ys| - 1]
  {
    var x, y := xs[|xs| - 1], ys[|ys| - 1];
    assert x in xs && y in ys;
    var i :| 0 <= i < |xs| && xs[i] == y;
    var j :| 0 <= j < |ys| && ys[j] == x;
    assert i < |xs| - 1 ==> before(y, x);
    assert j < |ys| - 1 ==> before(x, y);
    assert before(x, y) && before(y, x) ==> before(x, x);
  }

  method InsertKey<T(==, !new)>(xs: seq<T>, x: T, before: (T, T) -> bool) returns (out: seq<T>)
    requires StrictOrder(before) && Ascending(xs, before)
    ensures Ascending(out, before) && forall y :: y in out <==> y in xs || y == x
  {
    var k := 0;
    while k < |xs| && before(xs[k], x)
      invariant 0 <= k <= |xs|
      invariant forall i :: 0 <= i < k ==> before(xs[i], x)
    {
      k := k + 1;
    }
    if k < |xs| && xs[k] == x {
      return xs;
    }
    out := xs[..k] + [x] + xs[k..];
    assert xs == xs[..k] + xs[k..];
  }

  /** The sorted, duplicate-free union of the caller's bans and Yen's own. */
  method MergeBanned<T(==, !new)>(caller: seq<T>, yen: seq<T>, before: (T, T) -> bool) returns (out: seq<T>)
    requires StrictOrder(before)
    ensures Ascending(out, before) && out == InOrder(caller + yen, before)
    ensures forall x :: x in out <==> x in caller || x in yen
  {
    out := [];
    var all := caller + yen;
    for i := 0 to |all|
      invariant Ascending(out, before)
      invariant forall x :: x in out <==> x in all[..i]
    {
      out := InsertKey(out, all[i], before);
      assert all[..i + 1] == all[..i] + [all[i]];
    }
    assert all[..|all|] == all;
    AscendingIsUnique(out, InOrder(all, before), before);
  }
}

/** Short fixed-capacity names and the order their sorted indices rely on. */
module FixedNames {
  import opened Numbers
  import opened ByteIO

  const NAME_CAP := 7

  /** A name that fits the packed form. */
  predicate Fits8(s: Bytes) { |s| <= NAME_CAP }

  /** The sign of the first difference within the first n bytes. */
  function MemCmp(a: Bytes, b: Bytes, n: nat): int
    requires n <= |a| && n <= |b|
    decreases n
  {
    if n == 0 then 0
    else
      var before := MemCmp(a, b, n - 1);
      if before != 0 then before else a[n - 1] as int - b[n - 1] as int
  }

  /** Common prefix first, then length. */
  predicate Less(a: Bytes, b: Bytes) {
    var c := MemCmp(a, b, if |a| < |b| then |a| else |b|);
    if c != 0 then c < 0 else |a| < |b|
  }

  /** Dictionary order: a is a proper prefix of b, or has the smaller byte where they first differ. */
  ghost predicate DictionaryLess(a: Bytes, b: Bytes) {
    exists k: nat :: DiffersAt(a, b, k)
  }

  ghost predicate DiffersAt(a: Bytes, b: Bytes, k: nat) {
    && k <= |a| && k < |b| && a[..k] == b[..k] && (k < |a| ==> a[k] < b[k])
  }

  lemma {:induction false} MemCmpFindsDifference(a: Bytes, b: Bytes, n: nat)
    requires n <= |a| && n <= |b|
    ensures MemCmp(a, b, n) == 0 <==> a[..n] == b[..n]
    ensures MemCmp(a, b, n) < 0 ==> DictionaryLess(a, b)
    ensures MemCmp(a, b, n) > 0 ==> DictionaryLess(b, a)
    decreases n
  {
    if n > 0 {
      MemCmpFindsDifference(a, b, n - 1);
      assert a[..n] == a[..n - 1] + [a[n - 1]] && b[..n] == b[..n - 1] + [b[n - 1]];
      if MemCmp(a, b, n - 1) == 0 {
        assert a[n - 1] < b[n - 1] ==> DiffersAt(a, b, n - 1);
        assert a[n - 1] > b[n - 1] ==> DiffersAt(b, a, n - 1);
      }
    }
  }

  lemma NotBothAt(a: Bytes, b: Bytes, j: nat, k: nat)
    ensures !(DiffersAt(a, b, j) && DiffersAt(b, a, k))
  {
    if DiffersAt(a, b, j) && j < k <= |b| && k < |a| {
      assert a[..k][j] == a[j] && b[..k][j] == b[j];
    }
    if DiffersAt(b, a, k) && k < j <= |a| && j < |b| {
      assert a[..j][k] == a[k] && b[..j][k] == b[k];
    }
  }

  lemma NotBoth(a: Bytes, b: Bytes)
    ensures !(DictionaryLess(a, b) && DictionaryLess(b, a)) && !DictionaryLess(a, a)
  {
    forall j: nat, k: nat
      ensures !(DiffersAt(a, b, j) && DiffersAt(b, a, k))
    {
      NotBothAt(a, b, j, k);
    }
    forall k: nat
      ensures !DiffersAt(a, a, k)
    {
      NotBothAt(a, a, k, k);
    }
  }

  /** Comparing by common prefix and then by length is dictionary order. */
  lemma LessIsDictionaryOrder(a: Bytes, b: Bytes)
    ensures Less(a, b) <==> DictionaryLess(a, b)
    ensures a != b ==> Less(a, b) || Less(b, a)
  {
    var n := if |a| < |b| then |a| else |b|;
    MemCmpFindsDifference(a, b, n);
    MemCmpFindsDifference(b, a, n);
    MemCmpSwaps(a, b, n);
    NotBoth(a, b);
    if MemCmp(a, b, n) == 0 {
      assert |a| < |b| ==> DiffersAt(a, b, |a|);
      assert |b| < |a| ==> DiffersAt(b, a, |b|);
      assert |a| == |b| ==> a[..n] == a && b[..n] == b;
    }
  }

  lemma {:induction false} MemCmpSwaps(a: Bytes, b: Bytes, n: nat)
    requires n <= |a| && n <= |b|
    ensures MemCmp(b, a, n) == -MemCmp(a, b, n)
    decreases n
  {
    if n > 0 {
      MemCmpSwaps(a, b, n - 1);
    }
  }

  /** So it is a strict total order. */
  lemma LessIsStrictTotal(a: Bytes, b: Bytes, c: Bytes)
    ensures !Less(a, a) && !(Less(a, b) && Less(b, a)) && (a == b || Less(a, b) || Less(b, a))
    ensures Less(a, b) && Less(b, c) ==> Less(a, c)
  {
    hide Less, DictionaryLess;
    LessIsDictionaryOrder(a, a);
    LessIsDictionaryOrder(a, b);
    LessIsDictionaryOrder(b, a);
    LessIsDictionaryOrder(b, c);
    LessIsDictionaryOrder(a, c);
    NotBoth(a, b);
    DictionaryTransitive(a, b, c);
  }

  lemma DictionaryTransitive(a: Bytes, b: Bytes, c: Bytes)
    ensures DictionaryLess(a, b) && DictionaryLess(b, c) ==> DictionaryLess(a, c)
  {
    if DictionaryLess(a, b) && DictionaryLess(b, c) {
      var j: nat :| DiffersAt(a, b, j);
      var k: nat :| DiffersAt(b, c, k);
      var m := if j < k then j else k;
      assert a[..m] == a[..j][..m] && b[..m] == b[..j][..m];
      assert b[..m] == b[..k][..m] && c[..m] == c[..k][..m];
      if j < k {
        assert b[..k][j] == b[j] && c[..k][j] == c[j];
      } else if k < j {
        assert b[..j][k] == b[k] && a[..j][k] == a[k];
      }
      assert DiffersAt(a, c, m);
    }
  }

  // ---- Idents ---------------------------------------------------------------------------------

  /** An ident and its region code, ordered by ident and then by region. */
  datatype Key = Key(ident: Bytes, region: Bytes)

  predicate KeyLess(a: Key, b: Key) {
    var n := if |a.ident| < |b.ident| then |a.ident| else |b.ident|;
    var c := MemCmp(a.ident, b.ident, n);
    if c != 0 then c < 0
    else if |a.ident| != |b.ident| then |a.ident| < |b.ident|
    else Less(a.region, b.region)
  }

  lemma KeyLessIsByParts(a: Key, b: Key)
    ensures KeyLess(a, b) <==> Less(a.ident, b.ident) || (a.ident == b.ident && Less(a.region, b.region))
  {
    var n := if |a.ident| < |b.ident| then |a.ident| else |b.ident|;
    MemCmpFindsDifference(a.ident, b.ident, n);
    assert |a.ident| == |b.ident| ==> a.ident[..n] == a.ident && b.ident[..n] == b.ident;
    NotBoth(a.ident, b.ident);
  }

  /** The order of idents is strict and total, so sorted lookup finds at most one position. */
  lemma KeyLessIsStrictTotal(a: Key, b: Key, c: Key)
    ensures !KeyLess(a, a) && !(KeyLess(a, b) && KeyLess(b, a)) && (a == b || KeyLess(a, b) || KeyLess(b, a))
    ensures KeyLess(a, b) && KeyLess(b, c) ==> KeyLess(a, c)
  {
    hide KeyLess, Less;
    KeyLessIsByParts(a, a);
    KeyLessIsByParts(a, b);
    KeyLessIsByParts(b, a);
    KeyLessIsByParts(b, c);
    KeyLessIsByParts(a, c);
    LessIsStrictTotal(a.ident, b.ident, c.ident);
    LessIsStrictTotal(a.region, b.region, c.region);
    LessIsStrictTotal(a.ident, a.ident, a.ident);
  }
}

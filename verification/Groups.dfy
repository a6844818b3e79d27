/** Variable-length records: a head whose one field counts the fixed-width rows that follow it. */
module Groups {
  import opened Numbers
  import opened ByteIO

  /** The widths of the head and of a row, and which head field is the count. */
  datatype Shape = Shape(head: Widths, at: nat, rows: Widths)

  ghost predicate ShapeOk(sh: Shape) {
    sh.at < |sh.head| && SizeOf(sh.rows) > 0
  }

  datatype Group = Group(head: Row, rows: seq<Row>)

  ghost predicate GroupFits(sh: Shape, g: Group) {
    RowFits(sh.head, g.head) && RowsFit(sh.rows, g.rows) && sh.at < |g.head| && g.head[sh.at] == |g.rows|
  }

  ghost predicate GroupsFit(sh: Shape, gs: seq<Group>) {
    forall i :: 0 <= i < |gs| ==> GroupFits(sh, gs[i])
  }

  ghost function GroupBytes(sh: Shape, g: Group): Bytes
    requires GroupFits(sh, g)
  {
    Packed(sh.head, g.head) + Rows(sh.rows, g.rows)
  }

  ghost function GroupsBytes(sh: Shape, gs: seq<Group>): Bytes
    requires GroupsFit(sh, gs)
    decreases |gs|
  {
    if gs == [] then [] else GroupBytes(sh, gs[0]) + GroupsBytes(sh, gs[1..])
  }

  lemma GroupSize(sh: Shape, g: Group)
    requires GroupFits(sh, g)
    ensures |GroupBytes(sh, g)| == SizeOf(sh.head) + |g.rows| * SizeOf(sh.rows)
  {
    hide SizeOf, Packed, Rows, Span;
    PackedSize(sh.head, g.head);
    RowsSize(sh.rows, g.rows);
  }

  lemma {:induction false} GroupsSize(sh: Shape, gs: seq<Group>)
    requires GroupsFit(sh, gs)
    ensures |GroupsBytes(sh, gs)| >= |gs| * SizeOf(sh.head)
    decreases |gs|
  {
    hide GroupFits, GroupBytes, SizeOf;
    if gs != [] {
      GroupSize(sh, gs[0]);
      GroupsSize(sh, gs[1..]);
      SizeStep(|gs| - 1, SizeOf(sh.head));
      NotNegative(|gs[0].rows|, SizeOf(sh.rows));
    }
  }

  lemma NotNegative(a: nat, b: nat)
    ensures a * b >= 0
  {
  }

  // ---- The bytes determine the records ----------------------------------------------------------

  /** Bytes that start with two records of one kind start with equal ones. */
  lemma SamePacked(widths: Widths, x: Row, y: Row, a: Bytes, b: Bytes)
    requires RowFits(widths, x) && RowFits(widths, y) && Packed(widths, x) + a == Packed(widths, y) + b
    ensures x == y && a == b
  {
    PackedSize(widths, x);
    PackedSize(widths, y);
    hide Packed, SizeOf;
    SameSplit(Packed(widths, x), a, Packed(widths, y), b);
    PackedIsInjective(widths, x, y);
  }

  lemma SameRows(widths: Widths, x: seq<Row>, y: seq<Row>, a: Bytes, b: Bytes)
    requires RowsFit(widths, x) && RowsFit(widths, y) && |x| == |y| && Rows(widths, x) + a == Rows(widths, y) + b
    ensures x == y && a == b
  {
    RowsSize(widths, x);
    RowsSize(widths, y);
    hide Rows, SizeOf, RowFits;
    SameSplit(Rows(widths, x), a, Rows(widths, y), b);
    RowsAreInjective(widths, x, y);
  }

  lemma SameGroup(sh: Shape, x: Group, y: Group, a: Bytes, b: Bytes)
    requires GroupFits(sh, x) && GroupFits(sh, y) && GroupBytes(sh, x) + a == GroupBytes(sh, y) + b
    ensures x == y && a == b
  {
    hide Packed, Rows, Span, SizeOf;
    assert Packed(sh.head, x.head) + (Rows(sh.rows, x.rows) + a) == GroupBytes(sh, x) + a;
    assert Packed(sh.head, y.head) + (Rows(sh.rows, y.rows) + b) == GroupBytes(sh, y) + b;
    SamePacked(sh.head, x.head, y.head, Rows(sh.rows, x.rows) + a, Rows(sh.rows, y.rows) + b);
    SameRows(sh.rows, x.rows, y.rows, a, b);
  }

  /** Lists of as many groups at the start of the same bytes are the same list. */
  lemma {:induction false} SameGroups(sh: Shape, x: seq<Group>, y: seq<Group>, a: Bytes, b: Bytes)
    requires GroupsFit(sh, x) && GroupsFit(sh, y) && |x| == |y| && GroupsBytes(sh, x) + a == GroupsBytes(sh, y) + b
    ensures x == y && a == b
    decreases |x|
  {
    hide GroupFits, GroupBytes;
    if x == [] {
      assert GroupsBytes(sh, x) + a == a && GroupsBytes(sh, y) + b == b;
    } else {
      HeadAndTail(sh, x, a);
      HeadAndTail(sh, y, b);
      SameGroup(sh, x[0], y[0], GroupsBytes(sh, x[1..]) + a, GroupsBytes(sh, y[1..]) + b);
      SameGroups(sh, x[1..], y[1..], a, b);
      assert x == [x[0]] + x[1..] && y == [y[0]] + y[1..];
    }
  }

  lemma HeadAndTail(sh: Shape, x: seq<Group>, a: Bytes)
    requires GroupsFit(sh, x) && x != []
    ensures GroupsBytes(sh, x) + a == GroupBytes(sh, x[0]) + (GroupsBytes(sh, x[1..]) + a)
  {
    hide GroupFits, GroupBytes;
    assert GroupsBytes(sh, x) == GroupBytes(sh, x[0]) + GroupsBytes(sh, x[1..]);
  }

  lemma {:induction false} GroupsNext(sh: Shape, gs: seq<Group>, g: Group)
    requires GroupsFit(sh, gs) && GroupFits(sh, g)
    ensures GroupsFit(sh, gs + [g]) && GroupsBytes(sh, gs + [g]) == GroupsBytes(sh, gs) + GroupBytes(sh, g)
    decreases |gs|
  {
    hide GroupFits, GroupBytes;
    if gs == [] {
      assert gs + [g] == [g] && [g][1..] == [];
    } else {
      GroupsNext(sh, gs[1..], g);
      assert (gs + [g])[1..] == gs[1..] + [g];
    }
  }

  lemma {:induction false} GroupsSplit(sh: Shape, gs: seq<Group>, i: nat)
    requires GroupsFit(sh, gs) && i <= |gs|
    ensures GroupsBytes(sh, gs) == GroupsBytes(sh, gs[..i]) + GroupsBytes(sh, gs[i..])
    decreases i
  {
    hide GroupFits, GroupBytes;
    if i == 0 {
      assert gs[..0] == [] && gs[0..] == gs;
    } else {
      GroupsSplit(sh, gs, i - 1);
      GroupsNext(sh, gs[..i - 1], gs[i - 1]);
      assert gs[..i - 1] + [gs[i - 1]] == gs[..i];
      assert gs[i - 1..][1..] == gs[i..];
    }
  }

  // ---- Reading --------------------------------------------------------------------------------

  /** Makes room for n records: only ever as many as the bytes at hand could hold. */
  method Reserve(n: nat, size: nat, ghost available: nat)
    requires n * size <= available
  {
  }

  lemma FitsWhenDivided(n: nat, size: nat, available: nat)
    requires size > 0
    ensures n <= available / size <==> n * size <= available
  {
    var q, r := available / size, available % size;
    assert available == q * size + r;
    if n <= q {
      MulAtMost(n, q, size);
    } else {
      MulAtMost(q + 1, n, size);
      assert (q + 1) * size == q * size + size;
    }
  }

  lemma MulAtMost(a: nat, b: nat, c: nat)
    requires a <= b
    ensures a * c <= b * c
  {
  }

  /** gs is what the data starts with at a position. */
  ghost predicate GroupsAt(sh: Shape, data: Bytes, start: nat, n: nat, gs: seq<Group>) {
    && start <= |data| && GroupsFit(sh, gs) && |gs| == n
    && start + |GroupsBytes(sh, gs)| <= |data| && GroupsBytes(sh, gs) == data[start..start + |GroupsBytes(sh, gs)|]
  }

  /** One group at a position. */
  ghost predicate GroupAt(sh: Shape, data: Bytes, at: nat, g: Group) {
    && GroupFits(sh, g) && at + |GroupBytes(sh, g)| <= |data|
    && GroupBytes(sh, g) == data[at..at + |GroupBytes(sh, g)|]
  }

  lemma NextGroupAt(sh: Shape, data: Bytes, start: nat, pos: nat, n: nat, done: seq<Group>, gs: seq<Group>)
    requires GroupsFit(sh, done) && |done| < n && start <= pos <= |data| && GroupsBytes(sh, done) == data[start..pos]
    requires GroupsAt(sh, data, start, n, gs) && gs[..|done|] == done
    ensures GroupAt(sh, data, pos, gs[|done|])
  {
    hide GroupFits, GroupBytes;
    var i := |done|;
    GroupsSplit(sh, gs, i);
    var tail := gs[i..];
    var end := start + |GroupsBytes(sh, gs)|;
    assert GroupsBytes(sh, tail) == GroupBytes(sh, tail[0]) + GroupsBytes(sh, tail[1..]);
    assert data[start..end] == data[start..pos] + data[pos..end];
    SameSplit(GroupsBytes(sh, done), GroupsBytes(sh, tail), data[start..pos], data[pos..end]);
    var size := |GroupBytes(sh, tail[0])|;
    assert data[pos..end][..size] == data[pos..pos + size];
  }

  /** The head read at a position is the head of any group that starts there, and its rows fit behind it. */
  lemma GroupAtHead(sh: Shape, data: Bytes, at: nat, g: Group, head: Row)
    requires GroupAt(sh, data, at, g) && RowFits(sh.head, head)
    requires at + SizeOf(sh.head) <= |data| ==> Packed(sh.head, head) == data[at..at + SizeOf(sh.head)]
    ensures at + SizeOf(sh.head) + |g.rows| * SizeOf(sh.rows) <= |data| && head == g.head
  {
    GroupSize(sh, g);
    hide Packed, Rows, SizeOf, Span;
    NotNegative(|g.rows|, SizeOf(sh.rows));
    var size, middle := |GroupBytes(sh, g)|, at + SizeOf(sh.head);
    assert data[at..at + size] == data[at..middle] + data[middle..at + size];
    SamePacked(sh.head, g.head, head, Rows(sh.rows, g.rows), data[middle..at + size]);
  }

  lemma GroupIsAt(sh: Shape, data: Bytes, at: nat, middle: nat, end: nat, g: Group)
    requires at <= middle <= end <= |data| && RowFits(sh.head, g.head) && RowsFit(sh.rows, g.rows)
    requires sh.at < |g.head| && g.head[sh.at] == |g.rows|
    requires Packed(sh.head, g.head) == data[at..middle] && Rows(sh.rows, g.rows) == data[middle..end]
    ensures GroupFits(sh, g) && GroupBytes(sh, g) == data[at..end] && GroupAt(sh, data, at, g)
  {
    hide Packed, Rows, Span;
    assert data[at..end] == data[at..middle] + data[middle..end];
  }

  lemma OneGroupAt(sh: Shape, data: Bytes, at: nat, x: Group, y: Group)
    requires GroupAt(sh, data, at, x) && GroupAt(sh, data, at, y)
    ensures x == y
  {
    hide GroupBytes, GroupFits;
    assert data[at..] == data[at..at + |GroupBytes(sh, x)|] + data[at + |GroupBytes(sh, x)|..];
    assert data[at..] == data[at..at + |GroupBytes(sh, y)|] + data[at + |GroupBytes(sh, y)|..];
    SameGroup(sh, x, y, data[at + |GroupBytes(sh, x)|..], data[at + |GroupBytes(sh, y)|..]);
  }

  /** Reads one group, checking its row count against the bytes left. */
  method ReadGroup(reader: ByteReader, sh: Shape) returns (ok: bool, g: Group)
    requires reader.Valid() && ShapeOk(sh)
    modifies reader
    ensures reader.Valid()
    ensures ok && reader.ok ==>
              old(reader.ok) && old(reader.pos) <= reader.pos && GroupFits(sh, g)
              && GroupBytes(sh, g) == reader.data[old(reader.pos)..reader.pos]
    ensures old(reader.ok) ==> forall x :: GroupAt(sh, reader.data, old(reader.pos), x) ==> ok && reader.ok && g == x
  {
    hide Packed, Rows, SizeOf, Span, GroupBytes, GroupAt;
    ghost var data, at, was := reader.data, reader.pos, reader.ok;
    var head := reader.Record(sh.head);
    forall x | was && GroupAt(sh, data, at, x)
      ensures reader.ok && head == x.head && reader.pos + head[sh.at] * SizeOf(sh.rows) <= |data|
    {
      GroupFitsAt(sh, data, at, x);
      GroupAtHead(sh, data, at, x, head);
      NotNegative(|x.rows|, SizeOf(sh.rows));
    }
    var n := head[sh.at];
    FitsWhenDivided(n, SizeOf(sh.rows), reader.Remaining());
    if !reader.ok || n > reader.Remaining() / SizeOf(sh.rows) {
      return false, Group(head, []);
    }
    Reserve(n, SizeOf(sh.rows), reader.Remaining());
    ghost var middle := reader.pos;
    var rows := reader.Table(sh.rows, n);
    g := Group(head, rows);
    ok := true;
    GroupIsAt(sh, data, at, middle, reader.pos, g);
    forall x | GroupAt(sh, data, at, x)
      ensures g == x
    {
      OneGroupAt(sh, data, at, g, x);
    }
  }

  lemma GroupFitsAt(sh: Shape, data: Bytes, at: nat, x: Group)
    requires GroupAt(sh, data, at, x)
    ensures GroupFits(sh, x)
  {
    hide GroupFits, GroupBytes;
  }

  /** Reads n groups. */
  method ReadGroups(reader: ByteReader, sh: Shape, n: nat) returns (ok: bool, gs: seq<Group>)
    requires reader.Valid() && ShapeOk(sh)
    modifies reader
    ensures reader.Valid()
    ensures ok && reader.ok ==>
              old(reader.ok) && old(reader.pos) <= reader.pos && GroupsFit(sh, gs) && |gs| == n
              && GroupsBytes(sh, gs) == reader.data[old(reader.pos)..reader.pos]
    ensures old(reader.ok) ==> forall xs :: GroupsAt(sh, reader.data, old(reader.pos), n, xs) ==> ok && reader.ok && gs == xs
  {
    hide GroupFits, GroupBytes, GroupsBytes, GroupsAt, GroupAt, ShapeOk;
    gs := [];
    ghost var start, was, data := reader.pos, reader.ok, reader.data;
    NoGroups(sh, data, start);
    for i := 0 to n
      invariant reader.Valid() && reader.data == data && |gs| == i && GroupsFit(sh, gs) && start <= reader.pos
      invariant i == 0 ==> reader.ok == was
      invariant i > 0 ==> reader.ok && was
      invariant GroupsBytes(sh, gs) == data[start..reader.pos]
      invariant was ==> forall xs: seq<Group> :: GroupsAt(sh, data, start, n, xs) ==> |xs| == n && xs[..i] == gs
    {
      ghost var at := reader.pos;
      forall xs: seq<Group> | was && GroupsAt(sh, data, start, n, xs)
        ensures GroupAt(sh, data, at, xs[i])
      {
        NextGroupAt(sh, data, start, at, n, gs, xs);
      }
      var fine, g := ReadGroup(reader, sh);
      if !fine || !reader.ok {
        return false, gs;
      }
      GroupsNext(sh, gs, g);
      assert data[start..reader.pos] == data[start..at] + data[at..reader.pos];
      forall xs: seq<Group> | GroupsAt(sh, data, start, n, xs)
        ensures xs[..i + 1] == gs + [g]
      {
        assert xs[..i + 1] == xs[..i] + [xs[i]];
      }
      gs := gs + [g];
    }
    ok := true;
    assert forall xs: seq<Group> :: |xs| == n ==> xs[..n] == xs;
  }

  lemma NoGroups(sh: Shape, data: Bytes, start: nat)
    requires start <= |data|
    ensures GroupsFit(sh, []) && GroupsBytes(sh, []) == data[start..start]
    ensures forall gs: seq<Group> :: gs[..0] == []
    ensures forall n: nat, gs: seq<Group> :: GroupsAt(sh, data, start, n, gs) ==> |gs| == n
  {
    hide GroupFits, GroupBytes;
  }
}

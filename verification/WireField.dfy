/** Reading numbers and texts straight off the bytes, by position: the reference the record formats are checked against. */
module WireFields {
  import opened Numbers
  import opened ByteIO
  import opened Groups
  import opened Pieces

  /** The number the n bytes at a position spell. */
  ghost function Num(data: Bytes, at: nat, n: nat): nat {
    if at + n <= |data| then Value(data[at..at + n]) else 0
  }

  /** The signed number the n bytes at a position spell. */
  ghost function Int(data: Bytes, at: nat, n: nat): int {
    ToSigned(Num(data, at, n), n)
  }

  /** The eight bytes at a position are a pool offset and a length, and the pool holds s there. */
  ghost predicate TextRef(data: Bytes, at: nat, pool: Bytes, s: Bytes) {
    var from, n := Num(data, at, 4), Num(data, at + 4, 4);
    from + n <= |pool| && pool[from..from + n] == s
  }

  lemma NumOfPiece(data: Bytes, at: nat, piece: Bytes, k: nat, n: nat)
    requires PieceAt(data, at, piece) && k + n <= |piece|
    ensures Num(data, at + k, n) == Num(piece, k, n)
  {
    Cut(piece, k, n);
    PieceOfPiece(data, at, piece, k, piece[k..k + n]);
  }

  /** Field k of a record starts where the widths before it end. */
  lemma {:induction false} FieldAt(widths: Widths, row: Row, k: nat)
    requires RowFits(widths, row) && k < |row|
    ensures SizeOf(widths[..k]) + widths[k] <= |Packed(widths, row)|
    ensures Num(Packed(widths, row), SizeOf(widths[..k]), widths[k]) == row[k]
    decreases |row|
  {
    var n := |row| - 1;
    PackedSize(widths[..n], row[..n]);
    PackedLast(widths, row);
    var front, last := Packed(widths[..n], row[..n]), LittleEndian(row[n], widths[n]);
    hide Packed, SizeOf, LittleEndian, Value, Span;
    if k == n {
      PiecesOfSum(front, last);
      ValueOfWritten(row[n], widths[n]);
      assert (front + last)[|front|..|front| + widths[n]] == last;
    } else {
      FieldAt(widths[..n], row[..n], k);
      assert widths[..n][..k] == widths[..k];
      PiecesOfSum(front, last);
      NumOfPiece(front + last, 0, front, SizeOf(widths[..k]), widths[k]);
    }
  }

  /** Row i of a table starts i records in. */
  lemma {:induction false} RowAt(widths: Widths, rows: seq<Row>, i: nat)
    requires RowsFit(widths, rows) && i < |rows|
    ensures PieceAt(Rows(widths, rows), i * SizeOf(widths), Packed(widths, rows[i]))
    decreases |rows|
  {
    var n := |rows| - 1;
    RowsLast(widths, rows);
    RowsSize(widths, rows[..n]);
    var front, last := Rows(widths, rows[..n]), Packed(widths, rows[n]);
    hide Packed, SizeOf, Rows, Span, PieceAt;
    PiecesOfSum(front, last);
    if i < n {
      RowAt(widths, rows[..n], i);
      PieceOfPiece(front + last, 0, front, i * SizeOf(widths), Packed(widths, rows[i]));
    }
  }

  /** A row of a table that lies somewhere in the data. */
  lemma RowOfTable(data: Bytes, at: nat, widths: Widths, rows: seq<Row>, i: nat, size: nat)
    requires RowsFit(widths, rows) && i < |rows| && PieceAt(data, at, Rows(widths, rows)) && size == SizeOf(widths)
    ensures RowFits(widths, rows[i]) && PieceAt(data, at + size * i, Packed(widths, rows[i]))
  {
    hide Packed, SizeOf, Rows, Span, PieceAt;
    RowAt(widths, rows, i);
    PieceOfPiece(data, at, Rows(widths, rows), i * size, Packed(widths, rows[i]));
  }

  /** A field of a record that lies somewhere in the data. */
  lemma FieldOf(data: Bytes, at: nat, widths: Widths, row: Row, k: nat, before: nat)
    requires RowFits(widths, row) && k < |row| && PieceAt(data, at, Packed(widths, row)) && before == SizeOf(widths[..k])
    ensures Num(data, at + before, widths[k]) == row[k]
  {
    hide Packed, SizeOf, Span, PieceAt, Num;
    FieldAt(widths, row, k);
    NumOfPiece(data, at, Packed(widths, row), before, widths[k]);
  }

  /** A text reference of a record. */
  lemma TextIsReferred(data: Bytes, at: nat, pool: Bytes, s: Bytes)
    ensures TextRef(data, at, pool, s) <==> Resolve(pool, Num(data, at, 4), Num(data, at + 4, 4)) == Some(s)
  {
    hide Num;
  }

  /** Where the k-th of the variable records lies, the first one starting at `at`. */
  ghost function GroupStart(data: Bytes, at: nat, head: nat, count: nat, size: nat, k: nat): nat {
    if k == 0 then at
    else
      var before := GroupStart(data, at, head, count, size, k - 1);
      before + head + size * Num(data, before + count, 4)
  }

  /** The shape's count is a four-byte field. */
  ghost predicate CountsInFour(sh: Shape) {
    sh.at < |sh.head| && sh.head[sh.at] == 4
  }

  lemma {:induction false} GroupStartIs(data: Bytes, at: nat, sh: Shape, gs: seq<Group>, k: nat)
    requires GroupsFit(sh, gs) && k <= |gs| && CountsInFour(sh) && PieceAt(data, at, GroupsBytes(sh, gs))
    ensures GroupStart(data, at, SizeOf(sh.head), SizeOf(sh.head[..sh.at]), SizeOf(sh.rows), k) == at + |GroupsBytes(sh, gs[..k])|
    ensures k < |gs| ==> PieceAt(data, at + |GroupsBytes(sh, gs[..k])|, GroupBytes(sh, gs[k]))
    decreases k
  {
    hide GroupBytes, GroupFits, SizeOf, Num, PieceAt;
    GroupsSplit(sh, gs, k);
    PiecesJoin(data, at, GroupsBytes(sh, gs[..k]), GroupsBytes(sh, gs[k..]));
    if k < |gs| {
      assert GroupsBytes(sh, gs[k..]) == GroupBytes(sh, gs[k..][0]) + GroupsBytes(sh, gs[k..][1..]);
      PiecesJoin(data, at + |GroupsBytes(sh, gs[..k])|, GroupBytes(sh, gs[k]), GroupsBytes(sh, gs[k..][1..]));
    }
    if k > 0 {
      GroupStartIs(data, at, sh, gs, k - 1);
      GroupsNext(sh, gs[..k - 1], gs[k - 1]);
      assert gs[..k - 1] + [gs[k - 1]] == gs[..k];
      GroupCount(data, at + |GroupsBytes(sh, gs[..k - 1])|, sh, gs[k - 1]);
    } else {
      assert gs[..0] == [];
    }
  }

  /** A group's count is where its head says, and its length follows from it. */
  lemma GroupCount(data: Bytes, at: nat, sh: Shape, g: Group)
    requires GroupFits(sh, g) && CountsInFour(sh) && PieceAt(data, at, GroupBytes(sh, g))
    ensures Num(data, at + SizeOf(sh.head[..sh.at]), 4) == |g.rows|
    ensures |GroupBytes(sh, g)| == SizeOf(sh.head) + SizeOf(sh.rows) * |g.rows|
    ensures PieceAt(data, at, Packed(sh.head, g.head)) && PieceAt(data, at + SizeOf(sh.head), Rows(sh.rows, g.rows))
  {
    GroupSize(sh, g);
    GroupParts(sh, g);
    hide Packed, Rows, SizeOf, Num, PieceAt, RowFits, RowsFit, GroupBytes, GroupFits;
    Commutes(SizeOf(sh.rows), |g.rows|);
    PiecesJoin(data, at, Packed(sh.head, g.head), Rows(sh.rows, g.rows));
    FieldOf(data, at, sh.head, g.head, sh.at, SizeOf(sh.head[..sh.at]));
  }

  lemma GroupParts(sh: Shape, g: Group)
    requires GroupFits(sh, g)
    ensures RowFits(sh.head, g.head) && RowsFit(sh.rows, g.rows) && sh.at < |g.head| && g.head[sh.at] == |g.rows|
    ensures |g.head| == |sh.head| && forall i :: 0 <= i < |g.rows| ==> |g.rows[i]| == |sh.rows|
    ensures GroupBytes(sh, g) == Packed(sh.head, g.head) + Rows(sh.rows, g.rows) && |Packed(sh.head, g.head)| == SizeOf(sh.head)
  {
    PackedSize(sh.head, g.head);
    hide Packed, Rows, SizeOf, Span;
  }

  lemma Commutes(a: nat, b: nat)
    ensures a * b == b * a
  {
  }

  /** The group that starts where the counts before it put it. */
  lemma GroupIsThere(data: Bytes, at: nat, sh: Shape, gs: seq<Group>, k: nat, head: nat, count: nat, size: nat)
    requires GroupsFit(sh, gs) && k < |gs| && CountsInFour(sh) && PieceAt(data, at, GroupsBytes(sh, gs))
    requires head == SizeOf(sh.head) && count == SizeOf(sh.head[..sh.at]) && size == SizeOf(sh.rows)
    ensures var start := GroupStart(data, at, head, count, size, k);
            && RowFits(sh.head, gs[k].head) && RowsFit(sh.rows, gs[k].rows) && Num(data, start + count, 4) == |gs[k].rows|
            && PieceAt(data, start, Packed(sh.head, gs[k].head)) && PieceAt(data, start + head, Rows(sh.rows, gs[k].rows))
  {
    hide *;
    OneFits(sh, gs, k);
    GroupParts(sh, gs[k]);
    GroupStartIs(data, at, sh, gs, k);
    GroupCount(data, at + |GroupsBytes(sh, gs[..k])|, sh, gs[k]);
  }

  lemma OneFits(sh: Shape, gs: seq<Group>, k: nat)
    requires GroupsFit(sh, gs) && k < |gs|
    ensures GroupFits(sh, gs[k]) && GroupsFit(sh, gs[..k])
  {
    hide GroupFits;
  }

  /** Each field starts where the one before it ends. */
  lemma PrefixStep(widths: Widths, k: nat)
    requires k < |widths|
    ensures SizeOf(widths[..k + 1]) == SizeOf(widths[..k]) + widths[k]
  {
    assert widths[..k + 1][..k] == widths[..k];
  }

  lemma NoPrefix(widths: Widths)
    ensures SizeOf(widths[..0]) == 0
  {
  }
}

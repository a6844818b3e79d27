/** Little-endian records: how the cache writes and reads numbers, text and tables of fixed-width rows. */
module ByteIO {
  import opened Numbers

  newtype byte = x: int | 0 <= x < 256

  type Bytes = seq<byte>

  const U32_MAX := 0xFFFF_FFFF

  const U64_MAX := 0xFFFF_FFFF_FFFF_FFFF

  // ---- Numbers --------------------------------------------------------------------------------

  /** 256 to the n. */
  function Span(n: nat): (s: nat)
    ensures s > 0
  {
    if n == 0 then 1 else 256 * Span(n - 1)
  }

  lemma Spans()
    ensures Span(1) == 0x100 && Span(2) == 0x1_0000 && Span(4) == 0x1_0000_0000
    ensures Span(8) == 0x1_0000_0000_0000_0000
  {
    assert Span(3) == 0x100_0000;
    assert Span(5) == 0x100_0000_0000;
    assert Span(6) == 0x1_0000_0000_0000;
    assert Span(7) == 0x100_0000_0000_0000;
  }

  /** The n low bytes of v, least significant first; higher ones are dropped. */
  function LittleEndian(v: nat, n: nat): (bs: Bytes)
    ensures |bs| == n
    decreases n
  {
    if n == 0 then [] else [(v % 256) as byte] + LittleEndian(v / 256, n - 1)
  }

  function Value(bs: Bytes): nat {
    if bs == [] then 0 else bs[0] as nat + 256 * Value(bs[1..])
  }

  lemma {:induction false} ValueFits(bs: Bytes)
    ensures Value(bs) < Span(|bs|)
  {
    if bs != [] {
      ValueFits(bs[1..]);
    }
  }

  /** Reading back what was written gives the number, if it fits the width. */
  lemma {:induction false} ValueOfWritten(v: nat, n: nat)
    ensures v < Span(n) ==> Value(LittleEndian(v, n)) == v
    decreases n
  {
    if n > 0 {
      ValueOfWritten(v / 256, n - 1);
      var bs := LittleEndian(v, n);
      assert bs[1..] == LittleEndian(v / 256, n - 1);
      assert bs[0] as nat == v % 256;
      assert v == 256 * (v / 256) + v % 256;
      if v < Span(n) {
        assert v / 256 < Span(n - 1);
      }
    }
  }

  /** Writing back what was read gives the bytes. */
  lemma {:induction false} WrittenOfValue(bs: Bytes)
    ensures LittleEndian(Value(bs), |bs|) == bs
  {
    if bs != [] {
      WrittenOfValue(bs[1..]);
      var v := Value(bs);
      assert v % 256 == bs[0] as nat && v / 256 == Value(bs[1..]);
      assert bs == [bs[0]] + bs[1..];
    }
  }

  lemma {:induction false} ValueAppends(bs: Bytes, b: byte)
    ensures Value(bs + [b]) == Value(bs) + b as nat * Span(|bs|)
    decreases |bs|
  {
    if bs == [] {
      assert bs + [b] == [b] && [b][1..] == [];
    } else {
      ValueAppends(bs[1..], b);
      assert (bs + [b])[1..] == bs[1..] + [b];
      Reassociate(b as nat, Span(|bs| - 1));
    }
  }

  lemma Reassociate(b: nat, s: nat)
    ensures 256 * (b * s) == b * (256 * s)
  {
  }

  /** A signed number as the unsigned one with the same bits, n bytes wide. */
  function ToUnsigned(x: int, n: nat): (v: nat)
    ensures v < Span(n)
  {
    x % Span(n)
  }

  function ToSigned(v: nat, n: nat): int {
    if 2 * v < Span(n) then v else v - Span(n)
  }

  ghost predicate SignedFits(x: int, n: nat) {
    var s: int := Span(n);
    -s <= 2 * x < s
  }

  /** The two conversions undo each other. */
  lemma SignedBothWays(x: int, v: nat, n: nat)
    ensures SignedFits(x, n) ==> ToSigned(ToUnsigned(x, n), n) == x
    ensures n > 0 && v < Span(n) ==> SignedFits(ToSigned(v, n), n) && ToUnsigned(ToSigned(v, n), n) == v
  {
    var s := Span(n);
    if SignedFits(x, n) {
      ModOfSmall(x, s);
    }
    if n > 0 && v < s {
      assert s == 256 * Span(n - 1);
      ModOfSmall(ToSigned(v, n), s);
    }
  }

  lemma ModOfSmall(x: int, s: nat)
    requires s > 0 && 0 <= x + s && x < s
    ensures x % s == if x >= 0 then x else x + s
  {
    if x < 0 {
      assert x == -1 * s + (x + s);
    }
  }

  // ---- Records --------------------------------------------------------------------------------

  /** Field widths of a packed record, in bytes. */
  type Widths = seq<nat>

  type Row = seq<nat>

  function SizeOf(widths: Widths): nat {
    if widths == [] then 0 else SizeOf(widths[..|widths| - 1]) + widths[|widths| - 1]
  }

  ghost predicate RowFits(widths: Widths, row: Row) {
    |row| == |widths| && forall i :: 0 <= i < |row| ==> row[i] < Span(widths[i])
  }

  function Packed(widths: Widths, row: Row): Bytes
    requires |row| == |widths|
    decreases |row|
  {
    if row == [] then []
    else
      var n := |row| - 1;
      Packed(widths[..n], row[..n]) + LittleEndian(row[n], widths[n])
  }

  lemma {:induction false} PackedSize(widths: Widths, row: Row)
    requires |row| == |widths|
    ensures |Packed(widths, row)| == SizeOf(widths)
    decreases |row|
  {
    hide LittleEndian;
    if row != [] {
      PackedSize(widths[..|row| - 1], row[..|row| - 1]);
    }
  }

  function Rows(widths: Widths, rows: seq<Row>): Bytes
    requires forall i :: 0 <= i < |rows| ==> |rows[i]| == |widths|
    decreases |rows|
  {
    if rows == [] then []
    else
      var n := |rows| - 1;
      Rows(widths, rows[..n]) + Packed(widths, rows[n])
  }

  lemma {:induction false} RowsSize(widths: Widths, rows: seq<Row>)
    requires forall i :: 0 <= i < |rows| ==> |rows[i]| == |widths|
    ensures |Rows(widths, rows)| == |rows| * SizeOf(widths)
    decreases |rows|
  {
    hide Packed, SizeOf;
    if rows != [] {
      var n := |rows| - 1;
      RowsSize(widths, rows[..n]);
      PackedSize(widths, rows[n]);
      SizeStep(n, SizeOf(widths));
    }
  }

  lemma SizeStep(n: nat, size: nat)
    ensures (n + 1) * size == n * size + size
  {
  }

  ghost predicate RowsFit(widths: Widths, rows: seq<Row>) {
    forall i :: 0 <= i < |rows| ==> RowFits(widths, rows[i])
  }

  lemma SameSplit<T>(a: seq<T>, b: seq<T>, c: seq<T>, d: seq<T>)
    requires a + b == c + d && (|a| == |c| || |b| == |d|)
    ensures a == c && b == d
  {
    assert |a| == |c|;
    assert (a + b)[..|a|] == a && (c + d)[..|c|] == c;
    assert (a + b)[|a|..] == b && (c + d)[|c|..] == d;
  }

  lemma PackedLast(widths: Widths, row: Row)
    requires |row| == |widths| && row != []
    ensures var n := |row| - 1;
            Packed(widths, row) == Packed(widths[..n], row[..n]) + LittleEndian(row[n], widths[n])
  {
    hide LittleEndian;
  }

  lemma PackedNext(widths: Widths, row: Row, w: nat, v: nat)
    requires |row| == |widths|
    ensures Packed(widths + [w], row + [v]) == Packed(widths, row) + LittleEndian(v, w)
  {
    hide LittleEndian;
    PackedLast(widths + [w], row + [v]);
    assert (widths + [w])[..|row|] == widths && (row + [v])[..|row|] == row;
  }

  lemma SizeNext(widths: Widths, w: nat)
    ensures SizeOf(widths + [w]) == SizeOf(widths) + w
  {
    assert (widths + [w])[..|widths|] == widths;
  }

  /** A record's bytes determine its fields. */
  lemma {:induction false} PackedIsInjective(widths: Widths, x: Row, y: Row)
    requires RowFits(widths, x) && RowFits(widths, y) && Packed(widths, x) == Packed(widths, y)
    ensures x == y
    decreases |x|
  {
    hide Packed, LittleEndian, SizeOf, Span;
    if x != [] {
      var n := |x| - 1;
      PackedLast(widths, x);
      PackedLast(widths, y);
      SameSplit(Packed(widths[..n], x[..n]), LittleEndian(x[n], widths[n]),
                Packed(widths[..n], y[..n]), LittleEndian(y[n], widths[n]));
      PackedIsInjective(widths[..n], x[..n], y[..n]);
      ValueOfWritten(x[n], widths[n]);
      ValueOfWritten(y[n], widths[n]);
      assert x == x[..n] + [x[n]] && y == y[..n] + [y[n]];
    }
  }

  lemma RowsLast(widths: Widths, rows: seq<Row>)
    requires rows != [] && RowsFit(widths, rows)
    ensures var n := |rows| - 1;
            && RowsFit(widths, rows[..n]) && RowFits(widths, rows[n])
            && Rows(widths, rows) == Rows(widths, rows[..n]) + Packed(widths, rows[n])
            && |Packed(widths, rows[n])| == SizeOf(widths)
  {
    hide Packed, SizeOf, Span;
    PackedSize(widths, rows[|rows| - 1]);
  }

  /** A table's bytes determine its rows. */
  lemma {:induction false} RowsAreInjective(widths: Widths, x: seq<Row>, y: seq<Row>)
    requires RowsFit(widths, x) && RowsFit(widths, y) && |x| == |y| && Rows(widths, x) == Rows(widths, y)
    ensures x == y
    decreases |x|
  {
    hide Packed, SizeOf, Rows, Span;
    if x != [] {
      var n := |x| - 1;
      RowsLast(widths, x);
      RowsLast(widths, y);
      SameSplit(Rows(widths, x[..n]), Packed(widths, x[n]), Rows(widths, y[..n]), Packed(widths, y[n]));
      RowsAreInjective(widths, x[..n], y[..n]);
      PackedIsInjective(widths, x[n], y[n]);
      assert x == x[..n] + [x[n]] && y == y[..n] + [y[n]];
    }
  }

  lemma RowsNext(widths: Widths, rows: seq<Row>, row: Row)
    requires (forall i :: 0 <= i < |rows| ==> |rows[i]| == |widths|) && |row| == |widths|
    ensures Rows(widths, rows + [row]) == Rows(widths, rows) + Packed(widths, row)
  {
    assert (rows + [row])[..|rows|] == rows;
  }

  lemma NothingPacked()
    ensures Packed([], []) == [] && SizeOf([]) == 0
  {
  }

  // ---- The writer -----------------------------------------------------------------------------

  class ByteWriter {
    var out: Bytes
    var ok: bool

    constructor ()
      ensures out == [] && ok
    {
      out, ok := [], true;
    }

    method U8(v: nat)
      requires v < 256
      modifies this
      ensures out == old(out) + [v as byte] && ok == old(ok)
    {
      out := out + [v as byte];
    }

    /** Writes the n low bytes of v. */
    method Unsigned(v: nat, n: nat)
      modifies this
      ensures out == old(out) + LittleEndian(v, n) && ok == old(ok)
    {
      var rest := v;
      ghost var start := out;
      for i := 0 to n
        invariant ok == old(ok) && out + LittleEndian(rest, n - i) == start + LittleEndian(v, n)
      {
        ghost var before, was := out, rest;
        U8(rest % 256);
        rest := rest / 256;
        assert before + LittleEndian(was, n - i) == out + LittleEndian(rest, n - i - 1);
      }
    }

    /** Writes a record field by field. */
    method Record(widths: Widths, row: Row)
      requires |row| == |widths|
      modifies this
      ensures out == old(out) + Packed(widths, row) && ok == old(ok)
    {
      hide Packed, LittleEndian;
      ghost var start := out;
      NothingPacked();
      for i := 0 to |row|
        invariant ok == old(ok) && out == start + Packed(widths[..i], row[..i])
      {
        PackedNext(widths[..i], row[..i], widths[i], row[i]);
        assert widths[..i] + [widths[i]] == widths[..i + 1] && row[..i] + [row[i]] == row[..i + 1];
        Unsigned(row[i], widths[i]);
      }
      assert widths[..|row|] == widths && row[..|row|] == row;
    }

    method Raw(bs: Bytes)
      modifies this
      ensures out == old(out) + bs && ok == old(ok)
    {
      out := out + bs;
    }

    /** A length and then the text; text too long for its length field marks the writer failed and writes nothing. */
    method Text(s: Bytes)
      modifies this
      ensures |s| <= U32_MAX ==> out == old(out) + LittleEndian(|s|, 4) + s && ok == old(ok)
      ensures |s| > U32_MAX ==> out == old(out) && !ok
    {
      if |s| > U32_MAX {
        ok := false;
        return;
      }
      Unsigned(|s|, 4);
      Raw(s);
    }
  }

  // ---- The reader -----------------------------------------------------------------------------

  class ByteReader {
    const data: Bytes
    var pos: nat
    var ok: bool

    ghost predicate Valid()
      reads this
    {
      pos <= |data|
    }

    constructor (bytes: Bytes)
      ensures Valid() && data == bytes && pos == 0 && ok
    {
      data, pos, ok := bytes, 0, true;
    }

    function Remaining(): nat
      requires Valid()
      reads this
    {
      if ok then |data| - pos else 0
    }

    /** Reads a byte, or latches the failure and gives zero at the end. */
    method U8() returns (v: nat)
      requires Valid()
      modifies this
      ensures Valid() && v < 256
      ensures old(pos) < |data| ==> v == data[old(pos)] as nat && pos == old(pos) + 1 && ok == old(ok)
      ensures old(pos) == |data| ==> v == 0 && pos == old(pos) && !ok
    {
      if pos + 1 > |data| {
        ok := false;
        return 0;
      }
      v := data[pos] as nat;
      pos := pos + 1;
    }

    /** Reads an n-byte number; short input latches the failure. */
    method Unsigned(n: nat) returns (v: nat)
      requires Valid()
      modifies this
      ensures Valid() && v < Span(n)
      ensures ok <==> old(ok) && old(pos) + n <= |data|
      ensures old(pos) + n <= |data| ==> pos == old(pos) + n && v == Value(data[old(pos)..pos])
      ensures old(pos) + n > |data| ==> pos == |data|
    {
      v := 0;
      ghost var start, was := pos, ok;
      ghost var bytes: Bytes := [];
      for i := 0 to n
        invariant Valid() && |bytes| == i && v == Value(bytes)
        invariant ok <==> was && start + i <= |data|
        invariant start + i <= |data| ==> pos == start + i && bytes == data[start..pos]
        invariant start + i > |data| ==> pos == |data|
      {
        var b := U8();
        ValueAppends(bytes, b as byte);
        v := v + b * Span(i);
        bytes := bytes + [b as byte];
      }
      ValueFits(bytes);
    }

    /** Reads a record field by field. */
    method Record(widths: Widths) returns (row: Row)
      requires Valid()
      modifies this
      ensures Valid() && RowFits(widths, row)
      ensures ok <==> old(ok) && old(pos) + SizeOf(widths) <= |data|
      ensures old(pos) + SizeOf(widths) <= |data| ==>
                pos == old(pos) + SizeOf(widths) && Packed(widths, row) == data[old(pos)..pos]
    {
      hide Packed, LittleEndian, SizeOf, Span, Value;
      row := [];
      ghost var start, was := pos, ok;
      NothingPacked();
      assert widths[..0] == [];
      for i := 0 to |widths|
        invariant Valid() && RowFits(widths[..i], row)
        invariant ok <==> was && start + SizeOf(widths[..i]) <= |data|
        invariant start + SizeOf(widths[..i]) <= |data| ==>
          pos == start + SizeOf(widths[..i]) && Packed(widths[..i], row) == data[start..pos]
        invariant start + SizeOf(widths[..i]) > |data| ==> pos == |data|
      {
        ghost var at := pos;
        SizeNext(widths[..i], widths[i]);
        assert widths[..i] + [widths[i]] == widths[..i + 1];
        var v := Unsigned(widths[i]);
        PackedNext(widths[..i], row, widths[i], v);
        if start + SizeOf(widths[..i + 1]) <= |data| {
          WrittenOfValue(data[at..pos]);
          assert data[start..pos] == data[start..at] + data[at..pos];
        }
        row := row + [v];
      }
      assert widths[..|widths|] == widths;
    }

    /** Reads n records. */
    method Table(widths: Widths, n: nat) returns (rows: seq<Row>)
      requires Valid()
      modifies this
      ensures Valid() && |rows| == n && RowsFit(widths, rows)
      ensures ok <==> old(ok) && old(pos) + n * SizeOf(widths) <= |data|
      ensures old(pos) + n * SizeOf(widths) <= |data| ==>
                pos == old(pos) + n * SizeOf(widths) && Rows(widths, rows) == data[old(pos)..pos]
    {
      hide Packed, SizeOf, Span;
      rows := [];
      ghost var start, was := pos, ok;
      ghost var size := SizeOf(widths);
      for i := 0 to n
        invariant Valid() && |rows| == i && RowsFit(widths, rows)
        invariant i == 0 || (ok <==> was && start + i * size <= |data|)
        invariant i == 0 ==> ok == was && pos == start
        invariant start + i * size <= |data| ==> pos == start + i * size && Rows(widths, rows) == data[start..pos]
      {
        SizeStep(i, size);
        ghost var at, fine := pos, ok;
        var row := Record(widths);
        RowsNext(widths, rows, row);
        if start + (i + 1) * size <= |data| {
          assert data[start..pos] == data[start..at] + data[at..pos];
        }
        rows := rows + [row];
      }
    }

    /** Bulk read of n numbers: all of them, or none and the failure latched. */
    method Block(width: nat, n: nat) returns (rows: seq<Row>)
      requires Valid()
      modifies this
      ensures Valid() && |rows| == n && RowsFit([width], rows)
      ensures ok <==> old(ok) && old(pos) + n * width <= |data|
      ensures old(pos) + n * width <= |data| ==>
                pos == old(pos) + n * width && Rows([width], rows) == data[old(pos)..pos]
    {
      assert [width][..0] == [];
      assert SizeOf([width]) == width;
      if pos + n * width > |data| {
        ok := false;
        rows := seq(n, _ => [0]);
        return;
      }
      rows := Table([width], n);
    }

    /** A length and then the text; short input latches the failure. */
    method Text() returns (s: Bytes)
      requires Valid()
      modifies this
      ensures Valid()
      ensures ok ==> old(ok) && |s| <= U32_MAX && pos == old(pos) + 4 + |s| && data[old(pos)..pos] == LittleEndian(|s|, 4) + s
      ensures !ok ==> !old(ok) || old(pos) + 4 > |data| || old(pos) + 4 + Value(data[old(pos)..old(pos) + 4]) > |data|
    {
      ghost var start := pos;
      var len := Unsigned(4);
      Spans();
      if !ok || len > Remaining() {
        ok := false;
        return [];
      }
      s := data[pos..pos + len];
      WrittenOfValue(data[start..pos]);
      assert data[start..pos + len] == data[start..pos] + s;
      pos := pos + len;
    }
  }

  // ---- The string pool ------------------------------------------------------------------------

  /** The text a reference names, if it lies in the pool. */
  function Resolve(pool: Bytes, offset: nat, len: nat): Option<Bytes> {
    if offset > |pool| || len > |pool| - offset then None else Some(pool[offset..offset + len])
  }

  /** A reference stays good when the pool grows. */
  lemma ResolveGrows(pool: Bytes, more: Bytes, offset: nat, len: nat)
    requires Resolve(pool, offset, len).Some? && pool <= more
    ensures Resolve(more, offset, len) == Resolve(pool, offset, len)
  {
    assert more[..|pool|] == pool;
    assert more[offset..offset + len] == pool[offset..offset + len];
  }

  /** Resolves a reference; a bad one clears the flag. */
  method ResolveRef(pool: Bytes, offset: nat, len: nat, ok: bool) returns (s: Bytes, ok': bool)
    ensures ok' <==> ok && Resolve(pool, offset, len).Some?
    ensures Resolve(pool, offset, len) == Some(s) || (Resolve(pool, offset, len).None? && s == [])
  {
    if offset > |pool| || len > |pool| - offset {
      return [], false;
    }
    s, ok' := pool[offset..offset + len], ok;
  }

  class StringPool {
    var blob: Bytes
    var interned: map<Bytes, (nat, nat)>

    /** While the pool is addressable, every reference handed out still names its text. */
    ghost predicate Valid()
      reads this
    {
      forall s :: s in interned ==>
        interned[s].0 <= U32_MAX && interned[s].1 <= U32_MAX
        && (|blob| <= U32_MAX ==> Resolve(blob, interned[s].0, interned[s].1) == Some(s))
    }

    constructor ()
      ensures Valid() && blob == []
    {
      blob, interned := [], map[];
    }

    /** Interns a text and returns its reference; equal texts share one. References are 32 bits wide. */
    method Add(s: Bytes) returns (offset: nat, len: nat)
      requires Valid()
      modifies this
      ensures Valid() && old(blob) <= blob && offset <= U32_MAX && len <= U32_MAX
      ensures |blob| <= U32_MAX ==> Resolve(blob, offset, len) == Some(s)
      ensures s in old(interned) ==> blob == old(blob)
      ensures s !in old(interned) ==> blob == old(blob) + s
    {
      if s in interned {
        return interned[s].0, interned[s].1;
      }
      ghost var was := blob;
      offset, len := |blob| % (U32_MAX + 1), |s| % (U32_MAX + 1);
      blob := blob + s;
      forall t | t in interned && |blob| <= U32_MAX
        ensures Resolve(blob, interned[t].0, interned[t].1) == Some(t)
      {
        ResolveGrows(was, blob, interned[t].0, interned[t].1);
      }
      if |blob| <= U32_MAX {
        assert blob[offset..offset + len] == s;
      }
      interned := interned[s := (offset, len)];
    }
  }
}

/** The front of the cache file: magic, version, provenance, capabilities, pool length and the section table. */
module Fronts {
  import opened Numbers
  import opened ByteIO
  import opened Pieces
  import opened GraphWire
  import opened GraphCodec
  import opened CifpSegments
  import opened CifpArchives

  const MAGIC: Bytes := [0x42, 0x46, 0x44, 0x42]
  const FORMAT_VERSION := 21
  const SECTION_COUNT := 3

  const HEAD: Widths := [4, 4]
  const TAIL: Widths := [1, 1, 1, 1, 4, 4]
  const TABLE_ROW: Widths := [4, 4, 8, 8]

  /** Section count and cycle; three texts; capability flags, pool length and checksum; the section table. */
  datatype Front = Front(head: Row, version: Bytes, loader: Bytes, dir: Bytes, tail: Row, table: seq<Row>)

  ghost function TextBytes(s: Bytes): (bs: Bytes)
    ensures |bs| == 4 + |s|
  {
    LittleEndian(|s|, 4) + s
  }

  ghost predicate FrontFits(f: Front) {
    && RowFits(HEAD, f.head) && RowFits(TAIL, f.tail) && |f.table| == SECTION_COUNT && RowsFit(TABLE_ROW, f.table)
    && |f.version| <= U32_MAX && |f.loader| <= U32_MAX && |f.dir| <= U32_MAX
  }

  ghost function HeadBytes(f: Front): Bytes
    requires FrontFits(f)
  {
    Packed(HEAD, f.head)
  }

  ghost function TailBytes(f: Front): Bytes
    requires FrontFits(f)
  {
    Packed(TAIL, f.tail)
  }

  ghost function SectionTable(f: Front): Bytes
    requires FrontFits(f)
  {
    Rows(TABLE_ROW, f.table)
  }

  ghost function Signature(): (bs: Bytes)
    ensures |bs| == 8
  {
    MAGIC + LittleEndian(FORMAT_VERSION, 4)
  }

  /** The table and everything before it. */
  ghost function FrontBytes(f: Front): Bytes
    requires FrontFits(f)
  {
    Signature() + (HeadBytes(f) + (TextBytes(f.version) + (TextBytes(f.loader) + (TextBytes(f.dir) + (TailBytes(f) + SectionTable(f))))))
  }

  const HEAD_END := 16

  /** Where each text and the tail start. */
  function LoaderAt(f: Front): nat { 20 + |f.version| }

  function DirAt(f: Front): nat { 24 + |f.version| + |f.loader| }

  function TailAt(f: Front): nat { 28 + |f.version| + |f.loader| + |f.dir| }

  function FrontLength(f: Front): nat { TailAt(f) + 84 }

  lemma FrontSizes(f: Front)
    requires FrontFits(f)
    ensures |HeadBytes(f)| == 8 && |TailBytes(f)| == 12 && |SectionTable(f)| == 72
    ensures |FrontBytes(f)| == FrontLength(f)
  {
    SizeTwo(4, 4);
    SizeSix(1, 1, 1, 1, 4, 4);
    SizeFour(4, 4, 8, 8);
    PackedSize(HEAD, f.head);
    PackedSize(TAIL, f.tail);
    RowsSize(TABLE_ROW, f.table);
    hide Packed, Rows, TextBytes, SizeOf, Span;
  }

  /** The front, seven pieces in a row. */
  ghost predicate FrontPieces(file: Bytes, f: Front)
    requires FrontFits(f)
  {
    && PieceAt(file, 0, Signature()) && PieceAt(file, 8, HeadBytes(f)) && PieceAt(file, HEAD_END, TextBytes(f.version))
    && PieceAt(file, LoaderAt(f), TextBytes(f.loader)) && PieceAt(file, DirAt(f), TextBytes(f.dir))
    && PieceAt(file, TailAt(f), TailBytes(f)) && PieceAt(file, TailAt(f) + 12, SectionTable(f))
  }

  ghost predicate IsFront(file: Bytes, f: Front) {
    FrontFits(f) && PieceAt(file, 0, FrontBytes(f))
  }

  lemma FrontInPieces(file: Bytes, f: Front)
    requires FrontFits(f)
    ensures IsFront(file, f) <==> FrontPieces(file, f)
  {
    hide FrontFits, Signature, HeadBytes, TailBytes, SectionTable, TextBytes, PieceAt;
    FrontSizes(f);
    SevenPieces(file, Signature(), HeadBytes(f), TextBytes(f.version), TextBytes(f.loader), TextBytes(f.dir), TailBytes(f), SectionTable(f));
  }

  // ---- What a read found ------------------------------------------------------------------------

  /** The record at this place, or none because there is none. */
  ghost predicate RecordRead(file: Bytes, at: nat, widths: Widths, r: Option<Row>) {
    && (r.Some? ==> RowFits(widths, r.value) && PieceAt(file, at, Packed(widths, r.value)))
    && (r.None? ==> forall row :: RowFits(widths, row) ==> !PieceAt(file, at, Packed(widths, row)))
  }

  ghost predicate TableRead(file: Bytes, at: nat, r: Option<seq<Row>>) {
    && (r.Some? ==> |r.value| == SECTION_COUNT && RowsFit(TABLE_ROW, r.value) && PieceAt(file, at, Rows(TABLE_ROW, r.value)))
    && (r.None? ==> forall rows :: |rows| == SECTION_COUNT && RowsFit(TABLE_ROW, rows) ==> !PieceAt(file, at, Rows(TABLE_ROW, rows)))
  }

  ghost predicate TextRead(file: Bytes, at: nat, r: Option<Bytes>) {
    && (r.Some? ==> |r.value| <= U32_MAX && PieceAt(file, at, TextBytes(r.value)))
    && (r.None? ==> forall s :: |s| <= U32_MAX ==> !PieceAt(file, at, TextBytes(s)))
  }

  lemma OneRecord(file: Bytes, at: nat, widths: Widths, x: Row, y: Row)
    requires RowFits(widths, x) && RowFits(widths, y)
    requires PieceAt(file, at, Packed(widths, x)) && PieceAt(file, at, Packed(widths, y))
    ensures x == y
  {
    PackedSize(widths, x);
    PackedSize(widths, y);
    OnePiece(file, at, Packed(widths, x), Packed(widths, y));
    PackedIsInjective(widths, x, y);
  }

  lemma OneTable(file: Bytes, at: nat, x: seq<Row>, y: seq<Row>)
    requires |x| == |y| && RowsFit(TABLE_ROW, x) && RowsFit(TABLE_ROW, y)
    requires PieceAt(file, at, Rows(TABLE_ROW, x)) && PieceAt(file, at, Rows(TABLE_ROW, y))
    ensures x == y
  {
    RowsSize(TABLE_ROW, x);
    RowsSize(TABLE_ROW, y);
    hide Rows, PieceAt, SizeOf, Span;
    OnePiece(file, at, Rows(TABLE_ROW, x), Rows(TABLE_ROW, y));
    RowsAreInjective(TABLE_ROW, x, y);
  }

  /** A text is here when its length is, and as many bytes follow. */
  lemma TextIsHere(file: Bytes, at: nat, s: Bytes)
    requires |s| <= U32_MAX
    ensures PieceAt(file, at, TextBytes(s)) <==>
              at + 4 <= |file| && Value(file[at..at + 4]) == |s| && PieceAt(file, at + 4, s)
  {
    CountPiece(file, at, |s|);
    PiecesJoin(file, at, LittleEndian(|s|, 4), s);
    hide LittleEndian, Value, PieceAt;
  }

  lemma OneText(file: Bytes, at: nat, s: Bytes, t: Bytes)
    requires |s| <= U32_MAX && |t| <= U32_MAX && PieceAt(file, at, TextBytes(s)) && PieceAt(file, at, TextBytes(t))
    ensures s == t
  {
    hide TextBytes, Value, PieceAt;
    TextIsHere(file, at, s);
    TextIsHere(file, at, t);
    OnePiece(file, at + 4, s, t);
  }

  // ---- Whatever the front is, it is what was read -------------------------------------------------

  lemma HeadIs(file: Bytes, r: Option<Row>)
    requires RecordRead(file, 8, HEAD, r)
    ensures forall f :: IsFront(file, f) ==> r.Some? && f.head == r.value
  {
    hide IsFront, PieceAt, Packed, Rows, TextBytes, Span;
    forall f | IsFront(file, f)
      ensures r.Some? && f.head == r.value
    {
      FrontKnown(file, f);
      if r.Some? {
        OneRecord(file, 8, HEAD, f.head, r.value);
      }
    }
  }

  lemma FrontKnown(file: Bytes, f: Front)
    requires IsFront(file, f)
    ensures FrontFits(f) && FrontPieces(file, f)
  {
    FrontInPieces(file, f);
  }

  /** A file has one front at most. */
  lemma OneFront(file: Bytes, f: Front, g: Front)
    requires IsFront(file, f) && IsFront(file, g)
    ensures f == g
  {
    hide IsFront, PieceAt, Packed, Rows, TextBytes, Span, Signature;
    FrontKnown(file, f);
    FrontKnown(file, g);
    OneRecord(file, 8, HEAD, f.head, g.head);
    OneText(file, HEAD_END, f.version, g.version);
    OneText(file, LoaderAt(f), f.loader, g.loader);
    OneText(file, DirAt(f), f.dir, g.dir);
    OneRecord(file, TailAt(f), TAIL, f.tail, g.tail);
    OneTable(file, TailAt(f) + 12, f.table, g.table);
  }

  /** A text of the front: at a place the texts before it fix. */
  lemma VersionIs(file: Bytes, r: Option<Bytes>)
    requires TextRead(file, HEAD_END, r)
    ensures forall f :: IsFront(file, f) ==> r.Some? && f.version == r.value
  {
    hide IsFront, PieceAt, Packed, Rows, TextBytes, Span;
    forall f | IsFront(file, f)
      ensures r.Some? && f.version == r.value
    {
      FrontKnown(file, f);
      if r.Some? {
        OneText(file, HEAD_END, f.version, r.value);
      }
    }
  }

  lemma LoaderIs(file: Bytes, at: nat, r: Option<Bytes>)
    requires TextRead(file, at, r) && forall f :: IsFront(file, f) ==> LoaderAt(f) == at
    ensures forall f :: IsFront(file, f) ==> r.Some? && f.loader == r.value
  {
    hide IsFront, PieceAt, Packed, Rows, TextBytes, Span;
    forall f | IsFront(file, f)
      ensures r.Some? && f.loader == r.value
    {
      FrontKnown(file, f);
      if r.Some? {
        OneText(file, at, f.loader, r.value);
      }
    }
  }

  lemma DirIs(file: Bytes, at: nat, r: Option<Bytes>)
    requires TextRead(file, at, r) && forall f :: IsFront(file, f) ==> DirAt(f) == at
    ensures forall f :: IsFront(file, f) ==> r.Some? && f.dir == r.value
  {
    hide IsFront, PieceAt, Packed, Rows, TextBytes, Span;
    forall f | IsFront(file, f)
      ensures r.Some? && f.dir == r.value
    {
      FrontKnown(file, f);
      if r.Some? {
        OneText(file, at, f.dir, r.value);
      }
    }
  }

  lemma TailIs(file: Bytes, at: nat, r: Option<Row>)
    requires RecordRead(file, at, TAIL, r) && forall f :: IsFront(file, f) ==> TailAt(f) == at
    ensures forall f :: IsFront(file, f) ==> r.Some? && f.tail == r.value
  {
    hide IsFront, PieceAt, Packed, Rows, TextBytes, Span;
    forall f | IsFront(file, f)
      ensures r.Some? && f.tail == r.value
    {
      FrontKnown(file, f);
      if r.Some? {
        OneRecord(file, at, TAIL, f.tail, r.value);
      }
    }
  }

  lemma TableIs(file: Bytes, at: nat, r: Option<seq<Row>>)
    requires TableRead(file, at + 12, r) && forall f :: IsFront(file, f) ==> TailAt(f) == at
    ensures forall f :: IsFront(file, f) ==> r.Some? && f.table == r.value
  {
    hide IsFront, PieceAt, Packed, Rows, TextBytes, Span;
    forall f | IsFront(file, f)
      ensures r.Some? && f.table == r.value
    {
      FrontKnown(file, f);
      if r.Some? {
        OneTable(file, at + 12, f.table, r.value);
      }
    }
  }

  // ---- Reading it -----------------------------------------------------------------------------------

  /** Sequential reads through the file handle; the first failed or out-of-range read sticks. */
  class FileCursor {
    const file: Bytes
    var pos: nat
    var ok: bool

    ghost predicate Valid()
      reads this
    {
      pos <= |file|
    }

    constructor (bytes: Bytes)
      ensures Valid() && file == bytes && pos == 0 && ok
    {
      file, pos, ok := bytes, 0, true;
    }

    method Read(n: nat) returns (r: Option<Bytes>)
      requires Valid()
      modifies this
      ensures Valid() && (ok <==> old(ok) && old(pos) + n <= |file|) && (r.Some? <==> ok)
      ensures ok ==> pos == old(pos) + n && r.value == file[old(pos)..pos]
    {
      if !ok || n > |file| - pos {
        ok := false;
        return None;
      }
      r := Some(file[pos..pos + n]);
      pos := pos + n;
    }

    method Record(widths: Widths) returns (r: Option<Row>)
      requires Valid() && ok
      modifies this
      ensures Valid() && RecordRead(file, old(pos), widths, r) && (r.Some? <==> ok)
      ensures ok ==> pos == old(pos) + SizeOf(widths)
    {
      hide Packed, SizeOf, Span;
      ghost var start := pos;
      var bytes := Read(SizeOf(widths));
      forall row | RowFits(widths, row)
        ensures |Packed(widths, row)| == SizeOf(widths)
      {
        PackedSize(widths, row);
      }
      if bytes.None? {
        return None;
      }
      var reader := new ByteReader(bytes.value);
      var row := reader.Record(widths);
      assert bytes.value[0..SizeOf(widths)] == file[start..pos];
      r := Some(row);
    }

    method Table() returns (r: Option<seq<Row>>)
      requires Valid() && ok
      modifies this
      ensures Valid() && TableRead(file, old(pos), r) && (r.Some? <==> ok)
      ensures ok ==> pos == old(pos) + 72
    {
      SizeFour(4, 4, 8, 8);
      hide Rows, Packed, SizeOf, Span, TableRead;
      ghost var start := pos;
      NoTable(file, start);
      var bytes := Read(SECTION_COUNT * 24);
      if bytes.None? {
        return None;
      }
      var reader := new ByteReader(bytes.value);
      var rows := reader.Table(TABLE_ROW, SECTION_COUNT);
      assert bytes.value[0..72] == file[start..pos];
      TableFound(file, start, rows);
      r := Some(rows);
    }

    method Text() returns (r: Option<Bytes>)
      requires Valid() && ok
      modifies this
      ensures Valid() && TextRead(file, old(pos), r) && (r.Some? <==> ok)
      ensures ok ==> pos == old(pos) + 4 + |r.value|
    {
      hide TextBytes, Value, Span, LittleEndian, TextRead;
      ghost var start := pos;
      NoText(file, start);
      var count := Read(4);
      if count.None? {
        return None;
      }
      var reader := new ByteReader(count.value);
      var n := reader.Unsigned(4);
      assert count.value[0..4] == file[start..start + 4];
      FourBytesFit(count.value);
      r := Read(n);
      TextFound(file, start, n, r);
    }
  }

  lemma NoTable(file: Bytes, at: nat)
    ensures at + 72 > |file| ==> TableRead(file, at, None)
  {
    TableSizes();
    hide Rows, Span;
  }

  lemma TableFound(file: Bytes, at: nat, rows: seq<Row>)
    requires |rows| == SECTION_COUNT && RowsFit(TABLE_ROW, rows)
    requires at + 72 <= |file| && Rows(TABLE_ROW, rows) == file[at..at + 72]
    ensures TableRead(file, at, Some(rows))
  {
    hide Rows, Span;
  }

  lemma TableSizes()
    ensures forall rows :: |rows| == SECTION_COUNT && RowsFit(TABLE_ROW, rows) ==> |Rows(TABLE_ROW, rows)| == 72
  {
    hide Rows, SizeOf, Span;
    forall rows: seq<Row> | |rows| == SECTION_COUNT && RowsFit(TABLE_ROW, rows)
      ensures |Rows(TABLE_ROW, rows)| == 72
    {
      SizeFour(4, 4, 8, 8);
      RowsSize(TABLE_ROW, rows);
    }
  }

  lemma NoText(file: Bytes, at: nat)
    requires at <= |file|
    ensures at + 4 > |file| ==> TextRead(file, at, None)
  {
    hide Value, LittleEndian, Span;
  }

  lemma TextFound(file: Bytes, at: nat, n: nat, r: Option<Bytes>)
    requires at + 4 <= |file| && Value(file[at..at + 4]) == n <= U32_MAX && r == ReadAt(file, at + 4, n)
    ensures TextRead(file, at, r)
  {
    hide TextBytes, Value;
    forall s: Bytes | |s| <= U32_MAX
      ensures PieceAt(file, at, TextBytes(s)) <==> r == Some(s)
    {
      TextIsHere(file, at, s);
    }
  }

  /** Why the front could not be used. */
  datatype FrontResult = Damaged | OtherVersion | Read(front: Front)

  /** The file is a cache of another version. */
  ghost predicate OfOtherVersion(file: Bytes) {
    |file| >= 8 && file[0..4] == MAGIC && Value(file[4..8]) != FORMAT_VERSION
  }

  lemma SignatureIs(file: Bytes)
    ensures PieceAt(file, 0, Signature()) <==> |file| >= 8 && file[0..4] == MAGIC && Value(file[4..8]) == FORMAT_VERSION
  {
    CountPiece(file, 4, FORMAT_VERSION);
    PiecesJoin(file, 0, MAGIC, LittleEndian(FORMAT_VERSION, 4));
    hide LittleEndian, Value;
  }

  lemma FrontIsSigned(file: Bytes)
    ensures forall f :: IsFront(file, f) ==> PieceAt(file, 0, Signature())
  {
    hide IsFront, PieceAt, HeadBytes, TailBytes, SectionTable, TextBytes, FrontFits, Signature;
    forall f | IsFront(file, f)
      ensures PieceAt(file, 0, Signature())
    {
      FrontKnown(file, f);
    }
  }

  /** What reading the front answers: the only front the file has, or none. */
  ghost predicate FrontAnswers(file: Bytes, r: FrontResult) {
    && (r.Read? ==> IsFront(file, r.front) && forall f :: IsFront(file, f) ==> f == r.front)
    && (r.Damaged? ==> forall f :: !IsFront(file, f))
    && (r.OtherVersion? <==> OfOtherVersion(file))
  }

  /** Parts read one behind the other, each the only one that could be there, are the front. */
  lemma Assembled(file: Bytes, f: Front)
    requires PieceAt(file, 0, Signature()) && RecordRead(file, 8, HEAD, Some(f.head)) && TextRead(file, HEAD_END, Some(f.version))
    requires TextRead(file, LoaderAt(f), Some(f.loader)) && TextRead(file, DirAt(f), Some(f.dir))
    requires RecordRead(file, TailAt(f), TAIL, Some(f.tail)) && TableRead(file, TailAt(f) + 12, Some(f.table))
    requires forall g :: IsFront(file, g) ==> g.head == f.head && g.version == f.version && g.loader == f.loader
    requires forall g :: IsFront(file, g) ==> g.dir == f.dir && g.tail == f.tail && g.table == f.table
    ensures IsFront(file, f) && forall g :: IsFront(file, g) ==> g == f
  {
    PiecesFound(file, f);
    hide IsFront, FrontFits, FrontPieces, RecordRead, TextRead, TableRead, PieceAt, Signature;
    FrontInPieces(file, f);
  }

  lemma PiecesFound(file: Bytes, f: Front)
    requires PieceAt(file, 0, Signature()) && RecordRead(file, 8, HEAD, Some(f.head)) && TextRead(file, HEAD_END, Some(f.version))
    requires TextRead(file, LoaderAt(f), Some(f.loader)) && TextRead(file, DirAt(f), Some(f.dir))
    requires RecordRead(file, TailAt(f), TAIL, Some(f.tail)) && TableRead(file, TailAt(f) + 12, Some(f.table))
    ensures FrontFits(f) && FrontPieces(file, f)
  {
    hide PieceAt, Signature, Packed, Rows, TextBytes, Span;
  }

  /** Reads the magic and the version. */
  method ReadSignature(cur: FileCursor) returns (signed: bool, other: bool)
    requires cur.Valid() && cur.ok && cur.pos == 0
    modifies cur
    ensures cur.Valid() && (other <==> OfOtherVersion(cur.file)) && (signed <==> PieceAt(cur.file, 0, Signature()))
    ensures signed ==> cur.ok && cur.pos == 8 && !other
  {
    hide Signature, LittleEndian, PieceAt, Span, Value;
    ghost var file := cur.file;
    SignatureIs(file);
    var magic := cur.Read(4);
    if magic.None? || magic.value != MAGIC {
      return false, false;
    }
    var version := cur.Read(4);
    if version.None? {
      return false, false;
    }
    var reader := new ByteReader(version.value);
    var format := reader.Unsigned(4);
    assert version.value[0..4] == file[4..8];
    signed, other := format == FORMAT_VERSION, format != FORMAT_VERSION;
  }

  /** Reads the front. */
  method ReadFront(cur: FileCursor) returns (r: FrontResult)
    requires cur.Valid() && cur.ok && cur.pos == 0
    modifies cur
    ensures cur.Valid() && FrontAnswers(cur.file, r)
    ensures r.Read? ==> cur.ok && cur.pos == FrontLength(r.front)
  {
    hide IsFront, Signature, PieceAt, RecordRead, TextRead, TableRead, SizeOf;
    SizeTwo(4, 4);
    SizeSix(1, 1, 1, 1, 4, 4);
    ghost var file := cur.file;
    FrontIsSigned(file);
    var signed, other := ReadSignature(cur);
    r := if other then OtherVersion else Damaged;
    if !signed {
      return;
    }
    var head := cur.Record(HEAD);
    HeadIs(file, head);
    if head.None? {
      return;
    }
    var version := cur.Text();
    VersionIs(file, version);
    if version.None? {
      return;
    }
    var loader := cur.Text();
    LoaderIs(file, 20 + |version.value|, loader);
    if loader.None? {
      return;
    }
    var dir := cur.Text();
    DirIs(file, 24 + |version.value| + |loader.value|, dir);
    if dir.None? {
      return;
    }
    ghost var at := cur.pos;
    var tail := cur.Record(TAIL);
    TailIs(file, at, tail);
    if tail.None? {
      return;
    }
    var table := cur.Table();
    TableIs(file, at, table);
    if table.None? {
      return;
    }
    var f := Front(head.value, version.value, loader.value, dir.value, tail.value, table.value);
    Assembled(file, f);
    r := Read(f);
  }
}
